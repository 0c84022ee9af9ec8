/**
 Greedy chaining of river stretches: a chain continues with the first unused stretch that starts
 where the chain ends, and chains are begun at the headwaters first.
 */
module LineMerging {
  import opened Planar

  ghost predicate AllNonEmpty<T>(lines: seq<seq<T>>) {
    forall i :: 0 <= i < |lines| ==> lines[i] != []
  }

  function NonEmpty<T(==)>(lines: seq<seq<T>>): (kept: seq<seq<T>>)
    ensures AllNonEmpty(kept)
  {
    if lines == [] then [] else
    var n := |lines| - 1;
    if lines[n] == [] then NonEmpty(lines[..n]) else NonEmpty(lines[..n]) + [lines[n]]
  }

  lemma {:induction false} NonEmptyEdges<T>(lines: seq<seq<T>>)
    ensures AllEdges(NonEmpty(lines)) == AllEdges(lines)
  {
    if lines != [] {
      var front, last := lines[..|lines| - 1], lines[|lines| - 1];
      NonEmptyEdges(front);
      AllEdgesSnoc(NonEmpty(front), last);
    }
  }

  lemma NonEmptySnoc<T>(lines: seq<seq<T>>, n: nat)
    requires n < |lines|
    ensures NonEmpty(lines[..n + 1]) == NonEmpty(lines[..n]) + if lines[n] == [] then [] else [lines[n]]
  {
    assert lines[..n + 1][..n] == lines[..n];
  }

  lemma SelectSnoc<T>(lines: seq<T>, at: seq<nat>, n: nat)
    requires n < |lines| && InRange(at, |lines|)
    ensures Select(lines, at + [n]) == Select(lines, at) + [lines[n]]
  { }

  /** The positions of the non-empty ones among the first `n` lines. */
  ghost function NonEmptyPositions<T>(lines: seq<seq<T>>, n: nat): (at: seq<nat>)
    requires n <= |lines|
    ensures forall i: nat :: i in at <==> i < n && lines[i] != []
    ensures InRange(at, n)
  {
    if n == 0 then [] else
    var before := NonEmptyPositions(lines, n - 1);
    if lines[n - 1] != [] then before + [n - 1] else before
  }

  lemma AscendingSnoc(front: seq<nat>, last: nat)
    requires Ascending(front) && forall i :: i in front ==> i < last
    ensures Ascending(front + [last])
  {
    assert forall k :: 0 <= k < |front| ==> front[k] in front;
  }

  lemma {:induction false} PositionsAscend<T>(lines: seq<seq<T>>, n: nat)
    requires n <= |lines|
    ensures Ascending(NonEmptyPositions(lines, n))
  {
    if n > 0 {
      PositionsAscend(lines, n - 1);
      AscendingSnoc(NonEmptyPositions(lines, n - 1), n - 1);
    }
  }

  lemma NonEmptyNext<T>(lines: seq<seq<T>>, at: seq<nat>, n: nat)
    requires n < |lines| && InRange(at, |lines|) && NonEmpty(lines[..n]) == Select(lines, at)
    ensures NonEmpty(lines[..n + 1]) == Select(lines, if lines[n] != [] then at + [n] else at)
  {
    NonEmptySnoc(lines, n);
    SelectSnoc(lines, at, n);
  }

  lemma {:induction false} NonEmptyFirst<T>(lines: seq<seq<T>>, n: nat)
    requires n <= |lines|
    ensures NonEmpty(lines[..n]) == Select(lines, NonEmptyPositions(lines, n))
  {
    if n > 0 {
      NonEmptyFirst(lines, n - 1);
      NonEmptyNext(lines, NonEmptyPositions(lines, n - 1), n - 1);
    }
  }

  /** The lines that are left are the non-empty ones, in input order. */
  lemma NonEmptyKeeps<T>(lines: seq<seq<T>>)
    ensures var at := NonEmptyPositions(lines, |lines|);
            && Ascending(at) && InRange(at, |lines|)
            && (forall i: nat :: i < |lines| ==> (i in at <==> lines[i] != []))
            && NonEmpty(lines) == Select(lines, at)
  {
    assert lines[..|lines|] == lines;
    PositionsAscend(lines, |lines|);
    NonEmptyFirst(lines, |lines|);
  }

  function Start<T>(line: seq<T>): T
    requires line != []
  { line[0] }

  function End<T>(line: seq<T>): T
    requires line != []
  { line[|line| - 1] }

  ghost function Indices(n: nat): (indices: set<nat>)
    ensures forall i: nat :: i in indices <==> i < n
  {
    if n == 0 then {} else Indices(n - 1) + {n - 1}
  }

  /** The first `n` lines that start at `p`, in input order. */
  function StartingAt<T(==)>(lines: seq<seq<T>>, p: T, n: nat): (bucket: seq<nat>)
    requires AllNonEmpty(lines) && n <= |lines|
    ensures forall i: nat :: i in bucket <==> i < n && Start(lines[i]) == p
  {
    if n == 0 then [] else
    var before := StartingAt(lines, p, n - 1);
    if Start(lines[n - 1]) == p then before + [n - 1] else before
  }

  function Unused(bucket: seq<nat>, used: set<nat>): (left: seq<nat>)
    ensures forall i :: i in left <==> i in bucket && i !in used
  {
    if bucket == [] then [] else
    var rest := Unused(bucket[1..], used);
    if bucket[0] in used then rest else [bucket[0]] + rest
  }

  /** Unused lines that start where line `i` ends, in input order. */
  function Following<T(==)>(lines: seq<seq<T>>, used: set<nat>, i: nat): (following: seq<nat>)
    requires AllNonEmpty(lines) && i < |lines|
    ensures forall j: nat :: j in following <==> j < |lines| && Start(lines[j]) == End(lines[i]) && j !in used
  {
    Unused(StartingAt(lines, End(lines[i]), |lines|), used)
  }

  /** The lines that extend a chain ending with line `i`. */
  function Extension<T(==)>(lines: seq<seq<T>>, used: set<nat>, i: nat): (group: seq<nat>)
    requires AllNonEmpty(lines) && i < |lines|
    ensures InRange(group, |lines|)
    decreases Indices(|lines|) - used
  {
    var following := Following(lines, used, i);
    if following == [] then [] else
    var next := following[0];
    assert next in Indices(|lines|) - used;
    [next] + Extension(lines, used + {next}, next)
  }

  /** The lines of the chain that begins with line `i`. */
  function Group<T(==)>(lines: seq<seq<T>>, used: set<nat>, i: nat): (group: seq<nat>)
    requires AllNonEmpty(lines) && i < |lines|
    ensures group != [] && InRange(group, |lines|)
  {
    [i] + Extension(lines, used + {i}, i)
  }

  /** Groups of lines, one per chain, begun in the given order. */
  ghost function Groups<T>(lines: seq<seq<T>>, order: seq<nat>, used: set<nat>): seq<seq<nat>>
    requires AllNonEmpty(lines) && InRange(order, |lines|)
  {
    if order == [] then [] else
    if order[0] in used then Groups(lines, order[1..], used) else
    var group := Group(lines, used, order[0]);
    [group] + Groups(lines, order[1..], used + Elements(group))
  }

  function Ends<T(==)>(lines: seq<seq<T>>): set<T>
    requires AllNonEmpty(lines)
  {
    set i | 0 <= i < |lines| :: End(lines[i])
  }

  predicate Headwater<T(==)>(lines: seq<seq<T>>, i: nat)
    requires AllNonEmpty(lines) && i < |lines|
  {
    Start(lines[i]) !in Ends(lines)
  }

  /** The first `n` lines that are headwaters, or that are not, in input order. */
  function Ranked<T(==)>(lines: seq<seq<T>>, head: bool, n: nat): (order: seq<nat>)
    requires AllNonEmpty(lines) && n <= |lines|
    ensures forall i: nat :: i in order <==> i < n && Headwater(lines, i) == head
    ensures InRange(order, |lines|)
  {
    if n == 0 then [] else
    var before := Ranked(lines, head, n - 1);
    if Headwater(lines, n - 1) == head then before + [n - 1] else before
  }

  function Order<T(==)>(lines: seq<seq<T>>): (order: seq<nat>)
    requires AllNonEmpty(lines)
    ensures InRange(order, |lines|)
  {
    Ranked(lines, true, |lines|) + Ranked(lines, false, |lines|)
  }

  /** The chain of a group: every line after the first gives up its first point. */
  function Joined<T>(lines: seq<seq<T>>, group: seq<nat>): (chain: seq<T>)
    requires AllNonEmpty(lines) && group != [] && InRange(group, |lines|)
    ensures chain != []
  {
    var n := |group| - 1;
    if n == 0 then lines[group[0]] else Joined(lines, group[..n]) + lines[group[n]][1..]
  }

  ghost predicate ValidGroups(groups: seq<seq<nat>>, n: nat) {
    forall g :: 0 <= g < |groups| ==> groups[g] != [] && InRange(groups[g], n)
  }

  ghost function Chains<T>(lines: seq<seq<T>>, groups: seq<seq<nat>>): (chains: seq<seq<T>>)
    requires AllNonEmpty(lines) && ValidGroups(groups, |lines|)
    ensures |chains| == |groups|
    ensures forall g :: 0 <= g < |groups| ==> chains[g] == Joined(lines, groups[g])
  {
    seq(|groups|, g requires 0 <= g < |groups| => Joined(lines, groups[g]))
  }

  // ---------------------------------------------------------------------------------------------
  // What one group is
  // ---------------------------------------------------------------------------------------------

  /** Every line of the group starts where the one before it ends. */
  ghost predicate Linked<T>(lines: seq<seq<T>>, group: seq<nat>)
    requires AllNonEmpty(lines) && InRange(group, |lines|)
  {
    forall k :: 0 < k < |group| ==> End(lines[group[k - 1]]) == Start(lines[group[k]])
  }

  /** No line outside `used` starts where line `i` ends. */
  ghost predicate Exhausted<T>(lines: seq<seq<T>>, used: set<nat>, i: nat)
    requires AllNonEmpty(lines) && i < |lines|
  {
    forall j: nat :: j < |lines| && j !in used ==> Start(lines[j]) != End(lines[i])
  }

  ghost predicate ProperGroup<T>(lines: seq<seq<T>>, used: set<nat>, group: seq<nat>)
    requires AllNonEmpty(lines)
  {
    && group != [] && InRange(group, |lines|) && Distinct(group)
    && Elements(group) !! used
    && Linked(lines, group)
    && Exhausted(lines, used + Elements(group), group[|group| - 1])
  }

  lemma {:induction false} ExtensionIsProper<T>(lines: seq<seq<T>>, used: set<nat>, i: nat)
    requires AllNonEmpty(lines) && i < |lines| && i in used
    ensures ProperGroup(lines, used - {i}, [i] + Extension(lines, used, i))
    decreases Indices(|lines|) - used
  {
    var following := Following(lines, used, i);
    if following == [] {
      var group := [i] + Extension(lines, used, i);
      assert group == [i] && used - {i} + Elements(group) == used;
    } else {
      var next := following[0];
      assert next in following;
      assert next in Indices(|lines|) - used;
      ExtensionIsProper(lines, used + {next}, next);
      ConsIsProper(lines, used, i, [next] + Extension(lines, used + {next}, next));
    }
  }

  lemma ConsIsProper<T>(lines: seq<seq<T>>, used: set<nat>, i: nat, tail: seq<nat>)
    requires AllNonEmpty(lines) && i < |lines| && i in used
    requires tail != [] && tail[0] !in used && ProperGroup(lines, (used + {tail[0]}) - {tail[0]}, tail)
    requires End(lines[i]) == Start(lines[tail[0]])
    ensures ProperGroup(lines, used - {i}, [i] + tail)
  {
    var group := [i] + tail;
    assert (used + {tail[0]}) - {tail[0]} == used;
    assert Elements(group) == {i} + Elements(tail);
    assert used - {i} + Elements(group) == used + Elements(tail);
    assert Distinct(group) by {
      forall a, b | 0 <= a < b < |group| ensures group[a] != group[b] {
        assert group[b] == tail[b - 1] && tail[b - 1] in Elements(tail);
      }
    }
    assert Linked(lines, group) by {
      forall k | 0 < k < |group| ensures End(lines[group[k - 1]]) == Start(lines[group[k]]) {
        assert group[k] == tail[k - 1];
        assert k > 1 ==> group[k - 1] == tail[k - 2];
      }
    }
  }

  lemma GroupIsProper<T>(lines: seq<seq<T>>, used: set<nat>, i: nat)
    requires AllNonEmpty(lines) && i < |lines| && i !in used
    ensures ProperGroup(lines, used, Group(lines, used, i))
  {
    ExtensionIsProper(lines, used + {i}, i);
    assert used + {i} - {i} == used;
  }

  // ---------------------------------------------------------------------------------------------
  // All groups
  // ---------------------------------------------------------------------------------------------

  ghost function Taken(groups: seq<seq<nat>>): set<nat> {
    set g, i | 0 <= g < |groups| && i in groups[g] :: i
  }

  lemma TakenCons(group: seq<nat>, rest: seq<seq<nat>>)
    ensures Taken([group] + rest) == Elements(group) + Taken(rest)
  {
    var all := [group] + rest;
    forall i | i in Taken(all) ensures i in Elements(group) + Taken(rest) {
      var g :| 0 <= g < |all| && i in all[g];
      assert g > 0 ==> rest[g - 1] == all[g];
    }
    forall i | i in Elements(group) ensures i in Taken(all) { assert i in all[0]; }
    forall i | i in Taken(rest) ensures i in Taken(all) {
      var g :| 0 <= g < |rest| && i in rest[g];
      assert all[g + 1] == rest[g];
    }
  }

  /** The groups begun with `used` already taken: proper, disjoint, and each exhausted against
      everything taken up to and including itself. */
  ghost predicate ProperGroups<T>(lines: seq<seq<T>>, used: set<nat>, groups: seq<seq<nat>>)
    requires AllNonEmpty(lines)
    decreases |groups|
  {
    groups != [] ==>
      ProperGroup(lines, used, groups[0]) && ProperGroups(lines, used + Elements(groups[0]), groups[1..])
  }

  lemma GroupJoins<T>(lines: seq<seq<T>>, used: set<nat>, group: seq<nat>, rest: seq<seq<nat>>)
    requires AllNonEmpty(lines) && ProperGroup(lines, used, group) && ProperGroups(lines, used + Elements(group), rest)
    ensures ProperGroups(lines, used, [group] + rest)
    ensures used + Taken([group] + rest) == used + Elements(group) + Taken(rest)
  {
    TakenCons(group, rest);
    assert ([group] + rest)[1..] == rest;
  }

  lemma {:induction false} GroupsAreProper<T>(lines: seq<seq<T>>, order: seq<nat>, used: set<nat>)
    requires AllNonEmpty(lines) && InRange(order, |lines|)
    ensures ProperGroups(lines, used, Groups(lines, order, used))
    ensures Elements(order) <= used + Taken(Groups(lines, order, used))
  {
    if order != [] {
      assert order == [order[0]] + order[1..];
      if order[0] in used {
        GroupsAreProper(lines, order[1..], used);
      } else {
        var group := Group(lines, used, order[0]);
        var rest := Groups(lines, order[1..], used + Elements(group));
        GroupIsProper(lines, used, order[0]);
        GroupsAreProper(lines, order[1..], used + Elements(group));
        GroupJoins(lines, used, group, rest);
        assert group[0] == order[0] && order[0] in Elements(group);
      }
    }
  }

  lemma {:induction false} ProperGroupsFacts<T>(lines: seq<seq<T>>, used: set<nat>, groups: seq<seq<nat>>)
    requires AllNonEmpty(lines) && ProperGroups(lines, used, groups)
    ensures ValidGroups(groups, |lines|)
    ensures forall g :: 0 <= g < |groups| ==> Linked(lines, groups[g])
    ensures Taken(groups) !! used && forall i :: i in Taken(groups) ==> i < |lines|
    decreases |groups|
  {
    if groups != [] {
      ProperGroupsFacts(lines, used + Elements(groups[0]), groups[1..]);
      TakenCons(groups[0], groups[1..]);
      assert groups == [groups[0]] + groups[1..];
      forall g | 0 <= g < |groups|
        ensures groups[g] != [] && InRange(groups[g], |lines|) && Linked(lines, groups[g])
      {
        assert g > 0 ==> groups[g] == groups[1..][g - 1];
      }
      forall i | i in Elements(groups[0]) ensures i < |lines| { }
    }
  }

  /** The groups of the whole input. */
  ghost function AllGroups<T>(lines: seq<seq<T>>): seq<seq<nat>>
    requires AllNonEmpty(lines)
  {
    Groups(lines, Order(lines), {})
  }

  lemma AllGroupsFacts<T>(lines: seq<seq<T>>)
    requires AllNonEmpty(lines)
    ensures ProperGroups(lines, {}, AllGroups(lines))
    ensures ValidGroups(AllGroups(lines), |lines|)
    ensures forall g :: 0 <= g < |AllGroups(lines)| ==> Linked(lines, AllGroups(lines)[g])
    ensures Taken(AllGroups(lines)) == Indices(|lines|)
  {
    GroupsAreProper(lines, Order(lines), {});
    ProperGroupsFacts(lines, {}, AllGroups(lines));
    assert Elements(Order(lines)) == Indices(|lines|);
  }

  // ---------------------------------------------------------------------------------------------
  // Which line comes next
  // ---------------------------------------------------------------------------------------------

  /** Some line ends where line `i` starts. */
  ghost predicate Continues<T>(lines: seq<seq<T>>, i: nat)
    requires AllNonEmpty(lines) && i < |lines|
  {
    exists j: nat :: j < |lines| && End(lines[j]) == Start(lines[i])
  }

  /** Chains begin at headwaters first, and in input order. */
  ghost predicate Precedes<T>(lines: seq<seq<T>>, i: nat, j: nat)
    requires AllNonEmpty(lines) && i < |lines| && j < |lines|
  {
    if Continues(lines, i) == Continues(lines, j) then i < j else Continues(lines, j)
  }

  /** The group begins with the first line that is free. */
  ghost predicate BeginsFirst<T>(lines: seq<seq<T>>, used: set<nat>, group: seq<nat>)
    requires AllNonEmpty(lines) && group != [] && InRange(group, |lines|)
  {
    && group[0] !in used
    && forall j: nat :: j < |lines| && j !in used && j != group[0] ==> Precedes(lines, group[0], j)
  }

  /** Line `b` is the first free line that starts where line `a` ends. */
  ghost predicate FirstAfter<T>(lines: seq<seq<T>>, used: set<nat>, a: nat, b: nat)
    requires AllNonEmpty(lines) && a < |lines| && b < |lines|
  {
    && b !in used && Start(lines[b]) == End(lines[a])
    && forall j: nat :: j < b && Start(lines[j]) == End(lines[a]) ==> j in used
  }

  /** The group goes on with the first line that is free, and ends only when none is. */
  ghost predicate TakesFirst<T>(lines: seq<seq<T>>, used: set<nat>, group: seq<nat>)
    requires AllNonEmpty(lines) && group != [] && InRange(group, |lines|)
  {
    && (forall k :: 0 < k < |group| ==> FirstAfter(lines, used + Elements(group[..k]), group[k - 1], group[k]))
    && Exhausted(lines, used + Elements(group), group[|group| - 1])
  }

  /** The choice that begins and makes group `g`, with `used` taken before the first group. */
  ghost predicate GreedyAt<T>(lines: seq<seq<T>>, used: set<nat>, groups: seq<seq<nat>>, g: nat)
    requires AllNonEmpty(lines) && ValidGroups(groups, |lines|) && g < |groups|
  {
    var taken := used + Taken(groups[..g]);
    BeginsFirst(lines, taken, groups[g]) && TakesFirst(lines, taken, groups[g])
  }

  ghost predicate GreedyFrom<T>(lines: seq<seq<T>>, used: set<nat>, groups: seq<seq<nat>>)
    requires AllNonEmpty(lines)
  {
    && ValidGroups(groups, |lines|)
    && forall g: nat :: g < |groups| ==> GreedyAt(lines, used, groups, g)
  }

  /** Group after group, every choice is the first that is still free, until no line is. */
  ghost predicate Greedy<T>(lines: seq<seq<T>>, groups: seq<seq<nat>>)
    requires AllNonEmpty(lines)
  {
    GreedyFrom(lines, {}, groups) && forall i: nat :: i < |lines| ==> i in Taken(groups)
  }

  lemma {:induction false} ExtensionTakesFirst<T>(lines: seq<seq<T>>, used: set<nat>, i: nat)
    requires AllNonEmpty(lines) && i < |lines| && i in used
    ensures TakesFirst(lines, used - {i}, [i] + Extension(lines, used, i))
    decreases Indices(|lines|) - used
  {
    var following, group := Following(lines, used, i), [i] + Extension(lines, used, i);
    if following == [] {
      assert group == [i] && used - {i} + Elements(group) == used;
    } else {
      var next := following[0];
      assert next in following;
      assert next in Indices(|lines|) - used;
      ExtensionTakesFirst(lines, used + {next}, next);
      FirstOfFollowing(lines, used, i);
      ConsTakesFirst(lines, used, i, [next] + Extension(lines, used + {next}, next));
    }
  }

  lemma {:induction false} StartingAtAscends<T>(lines: seq<seq<T>>, p: T, n: nat)
    requires AllNonEmpty(lines) && n <= |lines|
    ensures Ascending(StartingAt(lines, p, n))
  {
    if n > 0 {
      StartingAtAscends(lines, p, n - 1);
      AscendingSnoc(StartingAt(lines, p, n - 1), n - 1);
    }
  }

  /** The first of the unused ones is the least. */
  lemma {:induction false} FirstUnused(bucket: seq<nat>, used: set<nat>, i: nat)
    requires Ascending(bucket) && i in bucket && i !in used
    ensures Unused(bucket, used) != [] && Unused(bucket, used)[0] <= i
  {
    if bucket[0] in used {
      FirstUnused(bucket[1..], used, i);
    }
  }

  lemma {:induction false} RankedAscends<T>(lines: seq<seq<T>>, head: bool, n: nat)
    requires AllNonEmpty(lines) && n <= |lines|
    ensures Ascending(Ranked(lines, head, n))
  {
    if n > 0 {
      RankedAscends(lines, head, n - 1);
      AscendingSnoc(Ranked(lines, head, n - 1), n - 1);
    }
  }

  lemma FirstOfFollowing<T>(lines: seq<seq<T>>, used: set<nat>, i: nat)
    requires AllNonEmpty(lines) && i < |lines| && Following(lines, used, i) != []
    ensures var next := Following(lines, used, i)[0]; next < |lines| && FirstAfter(lines, used, i, next)
  {
    var following := Following(lines, used, i);
    assert following[0] in following;
    StartingAtAscends(lines, End(lines[i]), |lines|);
    forall j | j in following ensures following[0] <= j {
      FirstUnused(StartingAt(lines, End(lines[i]), |lines|), used, j);
    }
  }

  lemma ConsTakesFirst<T>(lines: seq<seq<T>>, used: set<nat>, i: nat, tail: seq<nat>)
    requires AllNonEmpty(lines) && i < |lines| && i in used && tail != [] && InRange(tail, |lines|)
    requires FirstAfter(lines, used, i, tail[0]) && TakesFirst(lines, (used + {tail[0]}) - {tail[0]}, tail)
    ensures TakesFirst(lines, used - {i}, [i] + tail)
  {
    var group := [i] + tail;
    assert (used + {tail[0]}) - {tail[0]} == used;
    assert Elements(group) == {i} + Elements(tail);
    assert used - {i} + Elements(group) == used + Elements(tail);
    forall k | 0 < k < |group|
      ensures FirstAfter(lines, used - {i} + Elements(group[..k]), group[k - 1], group[k])
    {
      assert group[..k] == [i] + tail[..k - 1];
      assert Elements(group[..k]) == {i} + Elements(tail[..k - 1]);
      assert used - {i} + Elements(group[..k]) == used + Elements(tail[..k - 1]);
      if k == 1 { assert used + Elements(tail[..0]) == used; }
    }
  }

  /** The lines still to look at come in the right order, and every free line is among them. */
  ghost predicate InOrder<T>(lines: seq<seq<T>>, order: seq<nat>, used: set<nat>)
    requires AllNonEmpty(lines) && InRange(order, |lines|)
  {
    && (forall a, b :: 0 <= a < b < |order| ==> Precedes(lines, order[a], order[b]))
    && (forall j: nat :: j < |lines| && j !in used ==> j in order)
  }

  lemma GroupIsFirst<T>(lines: seq<seq<T>>, order: seq<nat>, used: set<nat>)
    requires AllNonEmpty(lines) && InRange(order, |lines|) && InOrder(lines, order, used)
    requires order != [] && order[0] !in used
    ensures var group := Group(lines, used, order[0]);
            BeginsFirst(lines, used, group) && TakesFirst(lines, used, group)
  {
    ExtensionTakesFirst(lines, used + {order[0]}, order[0]);
    assert used + {order[0]} - {order[0]} == used;
    forall j: nat | j < |lines| && j !in used && j != order[0] ensures Precedes(lines, order[0], j) {
      var b :| 0 <= b < |order| && order[b] == j;
    }
  }

  lemma {:induction false} GroupsAreGreedy<T>(lines: seq<seq<T>>, order: seq<nat>, used: set<nat>)
    requires AllNonEmpty(lines) && InRange(order, |lines|) && InOrder(lines, order, used)
    ensures GreedyFrom(lines, used, Groups(lines, order, used))
  {
    if order != [] {
      assert order == [order[0]] + order[1..];
      if order[0] in used {
        GroupsAreGreedy(lines, order[1..], used);
      } else {
        var group := Group(lines, used, order[0]);
        assert order[0] in group;
        GroupIsFirst(lines, order, used);
        GroupsAreGreedy(lines, order[1..], used + Elements(group));
        ConsIsGreedy(lines, used, group, Groups(lines, order[1..], used + Elements(group)));
      }
    }
  }

  lemma TakenAfter(used: set<nat>, group: seq<nat>, rest: seq<seq<nat>>, g: nat)
    requires g <= |rest|
    ensures used + Taken(([group] + rest)[..g + 1]) == used + Elements(group) + Taken(rest[..g])
  {
    assert ([group] + rest)[..g + 1] == [group] + rest[..g];
    TakenCons(group, rest[..g]);
  }

  lemma ConsIsGreedy<T>(lines: seq<seq<T>>, used: set<nat>, group: seq<nat>, rest: seq<seq<nat>>)
    requires AllNonEmpty(lines) && group != [] && InRange(group, |lines|)
    requires BeginsFirst(lines, used, group) && TakesFirst(lines, used, group)
    requires GreedyFrom(lines, used + Elements(group), rest)
    ensures GreedyFrom(lines, used, [group] + rest)
  {
    var groups := [group] + rest;
    assert ValidGroups(groups, |lines|);
    assert GreedyAt(lines, used, groups, 0) by {
      assert used + Taken(groups[..0]) == used;
    }
    forall g: nat | 0 < g < |groups| ensures GreedyAt(lines, used, groups, g) {
      TakenAfter(used, group, rest, g - 1);
      assert groups[g] == rest[g - 1] && GreedyAt(lines, used + Elements(group), rest, g - 1);
    }
  }

  lemma OrderInOrder<T>(lines: seq<seq<T>>)
    requires AllNonEmpty(lines)
    ensures InOrder(lines, Order(lines), {})
  {
    var heads, others := Ranked(lines, true, |lines|), Ranked(lines, false, |lines|);
    var order := heads + others;
    RankedAscends(lines, true, |lines|);
    RankedAscends(lines, false, |lines|);
    forall i: nat | i < |lines| ensures Headwater(lines, i) <==> !Continues(lines, i) { }
    forall a, b | 0 <= a < b < |order| ensures Precedes(lines, order[a], order[b]) {
      if a < |heads| {
        assert heads[a] in heads;
        if b < |heads| {
          assert heads[b] in heads;
        } else {
          assert others[b - |heads|] in others;
        }
      } else {
        assert others[a - |heads|] in others && others[b - |heads|] in others;
      }
    }
  }

  /** The groups are the greedy ones. */
  lemma AllGroupsAreGreedy<T>(lines: seq<seq<T>>)
    requires AllNonEmpty(lines)
    ensures Greedy(lines, AllGroups(lines))
  {
    OrderInOrder(lines);
    GroupsAreGreedy(lines, Order(lines), {});
    AllGroupsFacts(lines);
  }

  lemma FirstAfterIsUnique<T>(lines: seq<seq<T>>, used: set<nat>, i: nat, a: nat, b: nat)
    requires AllNonEmpty(lines) && i < |lines| && a < |lines| && b < |lines|
    requires FirstAfter(lines, used, i, a) && FirstAfter(lines, used, i, b)
    ensures a == b
  { }

  lemma FirstIsUnique<T>(lines: seq<seq<T>>, used: set<nat>, a: seq<nat>, b: seq<nat>)
    requires AllNonEmpty(lines) && a != [] && InRange(a, |lines|) && b != [] && InRange(b, |lines|)
    requires BeginsFirst(lines, used, a) && BeginsFirst(lines, used, b)
    ensures a[0] == b[0]
  { }

  lemma SameNext<T>(lines: seq<seq<T>>, used: set<nat>, a: seq<nat>, b: seq<nat>, m: nat)
    requires AllNonEmpty(lines) && a != [] && InRange(a, |lines|) && b != [] && InRange(b, |lines|)
    requires TakesFirst(lines, used, a) && TakesFirst(lines, used, b)
    requires 0 < m < |a| && m < |b| && a[..m] == b[..m]
    ensures a[m] == b[m]
  {
    assert a[m - 1] == a[..m][m - 1] && b[m - 1] == b[..m][m - 1];
    FirstAfterIsUnique(lines, used + Elements(a[..m]), a[m - 1], a[m], b[m]);
  }

  lemma OneMore<X>(a: seq<X>, b: seq<X>, m: nat)
    requires m < |a| && m < |b| && a[..m] == b[..m] && a[m] == b[m]
    ensures a[..m + 1] == b[..m + 1]
  {
    assert a[..m + 1] == a[..m] + [a[m]] && b[..m + 1] == b[..m] + [b[m]];
  }

  /** Two groups that take the first free lines agree as far as they go. */
  lemma {:induction false} SameSoFar<T>(lines: seq<seq<T>>, used: set<nat>, a: seq<nat>, b: seq<nat>, k: nat)
    requires AllNonEmpty(lines) && a != [] && InRange(a, |lines|) && b != [] && InRange(b, |lines|)
    requires TakesFirst(lines, used, a) && TakesFirst(lines, used, b) && a[0] == b[0]
    requires 0 < k <= |a| && k <= |b|
    ensures a[..k] == b[..k]
  {
    if k > 1 {
      SameSoFar(lines, used, a, b, k - 1);
      SameNext(lines, used, a, b, k - 1);
      OneMore(a, b, k - 1);
    }
  }

  lemma NoneFollows<T>(lines: seq<seq<T>>, used: set<nat>, i: nat, j: nat)
    requires AllNonEmpty(lines) && i < |lines| && j < |lines| && Exhausted(lines, used, i)
    ensures !FirstAfter(lines, used, i, j)
  { }

  lemma NoLonger<T>(lines: seq<seq<T>>, used: set<nat>, a: seq<nat>, b: seq<nat>)
    requires AllNonEmpty(lines) && a != [] && InRange(a, |lines|) && b != [] && InRange(b, |lines|)
    requires TakesFirst(lines, used, a) && TakesFirst(lines, used, b)
    requires |a| <= |b| && a == b[..|a|]
    ensures a == b
  {
    var k := |a|;
    if k < |b| {
      NoneFollows(lines, used + Elements(a), a[k - 1], b[k]);
    }
  }

  lemma SameGroup<T>(lines: seq<seq<T>>, used: set<nat>, a: seq<nat>, b: seq<nat>)
    requires AllNonEmpty(lines) && a != [] && InRange(a, |lines|) && b != [] && InRange(b, |lines|)
    requires BeginsFirst(lines, used, a) && TakesFirst(lines, used, a)
    requires BeginsFirst(lines, used, b) && TakesFirst(lines, used, b)
    ensures a == b
  {
    var k := if |a| <= |b| then |a| else |b|;
    FirstIsUnique(lines, used, a, b);
    SameSoFar(lines, used, a, b, k);
    if |a| <= |b| { NoLonger(lines, used, a, b); } else { NoLonger(lines, used, b, a); }
  }

  lemma {:induction false} SameGroups<T>(lines: seq<seq<T>>, a: seq<seq<nat>>, b: seq<seq<nat>>, n: nat)
    requires AllNonEmpty(lines) && GreedyFrom(lines, {}, a) && GreedyFrom(lines, {}, b)
    requires n <= |a| && n <= |b|
    ensures a[..n] == b[..n]
  {
    if n > 0 {
      var m := n - 1;
      SameGroups(lines, a, b, m);
      assert GreedyAt(lines, {}, a, m) && GreedyAt(lines, {}, b, m);
      SameGroup(lines, {} + Taken(a[..m]), a[m], b[m]);
      OneMore(a, b, m);
    }
  }

  lemma BegunFree<T>(lines: seq<seq<T>>, groups: seq<seq<nat>>, g: nat)
    requires AllNonEmpty(lines) && GreedyFrom(lines, {}, groups) && g < |groups|
    ensures groups[g] != [] && groups[g][0] < |lines| && groups[g][0] !in Taken(groups[..g])
  {
    assert GreedyAt(lines, {}, groups, g);
  }

  lemma NoMoreGroups<T>(lines: seq<seq<T>>, a: seq<seq<nat>>, b: seq<seq<nat>>)
    requires AllNonEmpty(lines) && Greedy(lines, a) && Greedy(lines, b)
    requires |a| <= |b| && a == b[..|a|]
    ensures a == b
  {
    if |a| < |b| {
      BegunFree(lines, b, |a|);
    }
  }

  /** Taking the first free line at every choice leaves one result. */
  lemma GreedyGroupsAreUnique<T>(lines: seq<seq<T>>, a: seq<seq<nat>>, b: seq<seq<nat>>)
    requires AllNonEmpty(lines) && Greedy(lines, a) && Greedy(lines, b)
    ensures a == b
  {
    var n := if |a| <= |b| then |a| else |b|;
    SameGroups(lines, a, b, n);
    if |a| <= |b| { NoMoreGroups(lines, a, b); } else { NoMoreGroups(lines, b, a); }
  }

  // ---------------------------------------------------------------------------------------------
  // The chains
  // ---------------------------------------------------------------------------------------------

  /** Each chain starts where its first line does, and is the edges of its lines, line after line. */
  ghost predicate Spelled<T>(lines: seq<seq<T>>, groups: seq<seq<nat>>, chains: seq<seq<T>>)
    requires AllNonEmpty(lines)
  {
    && ValidGroups(groups, |lines|) && |chains| == |groups|
    && forall g :: 0 <= g < |groups| ==>
         && chains[g] != [] && Start(chains[g]) == Start(lines[groups[g][0]])
         && Edges(chains[g]) == AllEdges(Select(lines, groups[g]))
  }

  /** The chains the merge returns. */
  ghost function Merged<T>(lines: seq<seq<T>>): seq<seq<T>> {
    var kept := NonEmpty(lines);
    AllGroupsFacts(kept);
    Chains(kept, AllGroups(kept))
  }

  // ---------------------------------------------------------------------------------------------
  // The loop
  // ---------------------------------------------------------------------------------------------

  lemma {:induction false} JoinedEnds<T>(lines: seq<seq<T>>, group: seq<nat>)
    requires AllNonEmpty(lines) && group != [] && InRange(group, |lines|) && Linked(lines, group)
    ensures Start(Joined(lines, group)) == Start(lines[group[0]])
    ensures End(Joined(lines, group)) == End(lines[group[|group| - 1]])
  {
    var n := |group| - 1;
    if n > 0 {
      JoinedEnds(lines, group[..n]);
      assert End(lines[group[n - 1]]) == Start(lines[group[n]]);
    }
  }

  lemma EdgesAppend<T>(a: seq<T>, b: seq<T>)
    requires a != [] && b != [] && End(a) == Start(b)
    ensures Edges(a + b[1..]) == Edges(a) + Edges(b)
  {
    var both, m := a + b[1..], |a| - 1;
    assert |Edges(both)| == m + |b| - 1;
    forall i | 0 <= i < |both| - 1 ensures Edges(both)[i] == (Edges(a) + Edges(b))[i] {
      if i >= m {
        assert both[i] == b[i - m] && both[i + 1] == b[i + 1 - m];
      }
    }
  }

  lemma SelectedEdges<T>(lines: seq<seq<T>>, front: seq<nat>, last: nat)
    requires InRange(front, |lines|) && last < |lines|
    ensures AllEdges(Select(lines, front + [last])) == AllEdges(Select(lines, front)) + Edges(lines[last])
  {
    SelectSnoc(lines, front, last);
    AllEdgesSnoc(Select(lines, front), lines[last]);
  }

  lemma {:induction false} JoinedEdges<T>(lines: seq<seq<T>>, group: seq<nat>)
    requires AllNonEmpty(lines) && group != [] && InRange(group, |lines|) && Linked(lines, group)
    ensures Edges(Joined(lines, group)) == AllEdges(Select(lines, group))
  {
    var n := |group| - 1;
    var front, last := group[..n], group[n];
    assert group == front + [last];
    SelectedEdges(lines, front, last);
    if n > 0 {
      JoinedEdges(lines, front);
      JoinedEnds(lines, front);
      assert End(lines[group[n - 1]]) == Start(lines[last]);
      EdgesAppend(Joined(lines, front), lines[last]);
    }
  }

  /** The chains are the lines of their groups, end to end. */
  lemma MergedIsSpelled<T>(input: seq<seq<T>>)
    ensures Spelled(NonEmpty(input), AllGroups(NonEmpty(input)), Merged(input))
  {
    var lines := NonEmpty(input);
    var groups := AllGroups(lines);
    AllGroupsFacts(lines);
    forall g | 0 <= g < |groups|
      ensures Start(Joined(lines, groups[g])) == Start(lines[groups[g][0]])
      ensures Edges(Joined(lines, groups[g])) == AllEdges(Select(lines, groups[g]))
    {
      JoinedEnds(lines, groups[g]);
      JoinedEdges(lines, groups[g]);
    }
  }

  lemma JoinedGrows<T>(lines: seq<seq<T>>, group: seq<nat>, next: nat)
    requires AllNonEmpty(lines) && group != [] && InRange(group, |lines|) && next < |lines|
    ensures Joined(lines, group + [next]) == Joined(lines, group) + lines[next][1..]
  {
    assert (group + [next])[..|group|] == group;
  }

  lemma LinkedGrows<T>(lines: seq<seq<T>>, group: seq<nat>, next: nat)
    requires AllNonEmpty(lines) && group != [] && InRange(group, |lines|) && next < |lines|
    requires Linked(lines, group) && End(lines[group[|group| - 1]]) == Start(lines[next])
    ensures Linked(lines, group + [next])
  { }

  /** `byStart` holds, for every point, the first `n` lines that start there. */
  ghost predicate Indexed<T>(lines: seq<seq<T>>, byStart: map<T, seq<nat>>, n: nat)
    requires AllNonEmpty(lines) && n <= |lines|
  {
    && (forall p :: p in byStart ==> byStart[p] == StartingAt(lines, p, n))
    && (forall i: nat :: i < n ==> Start(lines[i]) in byStart)
  }

  method IndexByStart<T(==)>(lines: seq<seq<T>>) returns (byStart: map<T, seq<nat>>)
    requires AllNonEmpty(lines)
    ensures Indexed(lines, byStart, |lines|)
  {
    byStart := map[];
    for n := 0 to |lines|
      invariant Indexed(lines, byStart, n)
    {
      var p := Start(lines[n]);
      NoneBefore(lines, byStart, p, n);
      byStart := byStart[p := (if p in byStart then byStart[p] else []) + [n]];
    }
  }

  lemma NoneBefore<T>(lines: seq<seq<T>>, byStart: map<T, seq<nat>>, p: T, n: nat)
    requires AllNonEmpty(lines) && n <= |lines| && Indexed(lines, byStart, n)
    ensures p !in byStart ==> StartingAt(lines, p, n) == []
  {
    var bucket := StartingAt(lines, p, n);
    if bucket != [] {
      assert bucket[0] in bucket;
      assert Start(lines[bucket[0]]) in byStart;
    }
  }

  /** The chain built so far, its lines, and what the chain will still take. */
  ghost predicate Building<T>(lines: seq<seq<T>>, goal: seq<nat>, group: seq<nat>, chain: seq<T>, before: set<nat>,
                              used: set<nat>)
    requires AllNonEmpty(lines)
  {
    && group != [] && InRange(group, |lines|) && Linked(lines, group)
    && chain == Joined(lines, group)
    && used == before + Elements(group)
    && goal == group + Extension(lines, used, group[|group| - 1])
  }

  lemma BuildEnd<T>(lines: seq<seq<T>>, goal: seq<nat>, group: seq<nat>, chain: seq<T>, before: set<nat>,
                    used: set<nat>)
    requires AllNonEmpty(lines) && Building(lines, goal, group, chain, before, used)
    ensures chain != [] && End(chain) == End(lines[group[|group| - 1]])
    ensures Following(lines, used, group[|group| - 1]) == [] ==> goal == group
  {
    JoinedEnds(lines, group);
  }

  lemma BuildStep<T>(lines: seq<seq<T>>, goal: seq<nat>, group: seq<nat>, chain: seq<T>, before: set<nat>,
                     used: set<nat>, next: nat)
    requires AllNonEmpty(lines) && Building(lines, goal, group, chain, before, used)
    requires Following(lines, used, group[|group| - 1]) != [] && Following(lines, used, group[|group| - 1])[0] == next
    ensures next < |lines| && next !in used
    ensures Building(lines, goal, group + [next], chain + lines[next][1..], before, used + {next})
  {
    var last := group[|group| - 1];
    assert next in Following(lines, used, last);
    JoinedGrows(lines, group, next);
    LinkedGrows(lines, group, next);
    ElementsSnoc(group, next);
    assert used + {next} == before + Elements(group + [next]);
    ExtensionStep(lines, used, last, group, next);
  }

  lemma ExtensionStep<T>(lines: seq<seq<T>>, used: set<nat>, last: nat, group: seq<nat>, next: nat)
    requires AllNonEmpty(lines) && last < |lines| && next < |lines|
    requires Following(lines, used, last) != [] && Following(lines, used, last)[0] == next
    ensures group + Extension(lines, used, last) == group + [next] + Extension(lines, used + {next}, next)
  { }

  /** Unused lines that start where the chain ends, looked up in the index. */
  function FollowingIn<T(==)>(byStart: map<T, seq<nat>>, end: T, used: set<nat>): seq<nat> {
    Unused(if end in byStart then byStart[end] else [], used)
  }

  method ExtendChain<T(==)>(lines: seq<seq<T>>, byStart: map<T, seq<nat>>, before: set<nat>, index: nat)
    returns (chain: seq<T>, used: set<nat>)
    requires AllNonEmpty(lines) && Indexed(lines, byStart, |lines|) && index < |lines| && index !in before
    ensures chain == Joined(lines, Group(lines, before, index))
    ensures used == before + Elements(Group(lines, before, index))
  {
    used := before + {index};
    chain := lines[index];
    ghost var goal := Group(lines, before, index);
    ghost var group := [index];
    BuildEnd(lines, goal, group, chain, before, used);
    var following := FollowingIn(byStart, End(chain), used);
    NoneBefore(lines, byStart, End(chain), |lines|);
    while following != []
      invariant Building(lines, goal, group, chain, before, used)
      invariant following == Following(lines, used, group[|group| - 1])
      decreases Indices(|lines|) - used
    {
      var next := following[0];
      BuildStep(lines, goal, group, chain, before, used, next);
      assert next in Indices(|lines|) - used;
      used := used + {next};
      chain := chain + lines[next][1..];
      group := group + [next];
      BuildEnd(lines, goal, group, chain, before, used);
      NoneBefore(lines, byStart, End(chain), |lines|);
      following := FollowingIn(byStart, End(chain), used);
    }
    BuildEnd(lines, goal, group, chain, before, used);
  }

  lemma ChainsGrow<T>(lines: seq<seq<T>>, groups: seq<seq<nat>>, group: seq<nat>)
    requires AllNonEmpty(lines) && ValidGroups(groups, |lines|) && group != [] && InRange(group, |lines|)
    ensures ValidGroups(groups + [group], |lines|)
    ensures Chains(lines, groups + [group]) == Chains(lines, groups) + [Joined(lines, group)]
  { }

  /** The chains built so far and those still to come are all the chains. */
  ghost predicate Merging<T>(lines: seq<seq<T>>, all: seq<seq<nat>>, done: seq<seq<nat>>, merged: seq<seq<T>>,
                             left: seq<nat>, used: set<nat>)
    requires AllNonEmpty(lines)
  {
    && ValidGroups(done, |lines|) && merged == Chains(lines, done)
    && InRange(left, |lines|)
    && all == done + Groups(lines, left, used)
  }

  lemma MergeStep<T>(lines: seq<seq<T>>, all: seq<seq<nat>>, done: seq<seq<nat>>, merged: seq<seq<T>>, left: seq<nat>,
                     used: set<nat>)
    requires AllNonEmpty(lines) && left != [] && Merging(lines, all, done, merged, left, used)
    ensures left[0] in used ==> Merging(lines, all, done, merged, left[1..], used)
    ensures left[0] !in used ==>
              var group := Group(lines, used, left[0]);
              Merging(lines, all, done + [group], merged + [Joined(lines, group)], left[1..], used + Elements(group))
  {
    if left[0] !in used {
      var group := Group(lines, used, left[0]);
      ChainsGrow(lines, done, group);
      assert all == done + ([group] + Groups(lines, left[1..], used + Elements(group)));
    }
  }

  method MergeLines<T(==)>(input: seq<seq<T>>) returns (merged: seq<seq<T>>)
    ensures merged == Merged(input)
    ensures var lines := NonEmpty(input);
            Greedy(lines, AllGroups(lines)) && Spelled(lines, AllGroups(lines), merged)
  {
    var lines := NonEmpty(input);
    AllGroupsFacts(lines);
    AllGroupsAreGreedy(lines);
    MergedIsSpelled(input);
    merged := MergeInOrder(lines, Order(lines));
  }

  method MergeInOrder<T(==)>(lines: seq<seq<T>>, order: seq<nat>) returns (merged: seq<seq<T>>)
    requires AllNonEmpty(lines) && InRange(order, |lines|)
    requires ValidGroups(Groups(lines, order, {}), |lines|)
    ensures merged == Chains(lines, Groups(lines, order, {}))
  {
    var byStart := IndexByStart(lines);
    var used: set<nat> := {};
    var left := order;
    merged := [];
    ghost var done: seq<seq<nat>> := [];
    ghost var all := Groups(lines, order, {});
    while left != []
      invariant Merging(lines, all, done, merged, left, used)
      decreases |left|
    {
      var index, rest := left[0], left[1..];
      MergeStep(lines, all, done, merged, left, used);
      if index in used {
        left := rest;
        continue;
      }
      ghost var group := Group(lines, used, index);
      assert Merging(lines, all, done + [group], merged + [Joined(lines, group)], rest, used + Elements(group));
      var chain, taken := ExtendChain(lines, byStart, used, index);
      done, merged, left, used := done + [group], merged + [chain], rest, taken;
    }
    assert done == all;
  }

  // ---------------------------------------------------------------------------------------------
  // What the merge promises
  // ---------------------------------------------------------------------------------------------

  /** The end of a chain is never the start of a chain returned after it. */
  lemma {:induction false} GroupsOrdered<T>(lines: seq<seq<T>>, used: set<nat>, groups: seq<seq<nat>>, a: nat, b: nat)
    requires AllNonEmpty(lines) && ProperGroups(lines, used, groups) && a < b < |groups|
    requires ValidGroups(groups, |lines|)
    ensures End(lines[groups[a][|groups[a]| - 1]]) != Start(lines[groups[b][0]])
    decreases |groups|
  {
    var taken := used + Elements(groups[0]);
    if a > 0 {
      GroupsOrdered(lines, taken, groups[1..], a - 1, b - 1);
    } else {
      ProperGroupsFacts(lines, taken, groups[1..]);
      var first := groups[b][0];
      assert first in groups[1..][b - 1];
      assert first in Taken(groups[1..]);
    }
  }

  lemma MergedOrdered<T>(input: seq<seq<T>>, a: nat, b: nat)
    requires a < b < |Merged(input)|
    ensures Merged(input)[a] != [] && Merged(input)[b] != []
    ensures End(Merged(input)[a]) != Start(Merged(input)[b])
  {
    var lines := NonEmpty(input);
    var groups := AllGroups(lines);
    AllGroupsFacts(lines);
    JoinedEnds(lines, groups[a]);
    JoinedEnds(lines, groups[b]);
    GroupsOrdered(lines, {}, groups, a, b);
  }

  /** How often edge `e` occurs in a line. */
  ghost function EdgeCount<T>(line: seq<T>, e: (T, T)): nat {
    var n := |line|;
    if n < 2 then 0 else EdgeCount(line[..n - 1], e) + if (line[n - 2], line[n - 1]) == e then 1 else 0
  }

  lemma {:induction false} EdgeCountMeaning<T>(line: seq<T>, e: (T, T))
    ensures EdgeCount(line, e) == multiset(Edges(line))[e]
  {
    var n := |line|;
    if n >= 2 {
      EdgeCountMeaning(line[..n - 1], e);
      assert line == line[..n - 1] + [line[n - 1]];
      EdgesGrow(line[..n - 1], line[n - 1]);
      CountSnoc(Edges(line[..n - 1]), (line[n - 2], line[n - 1]), e);
    }
  }

  lemma CountSnoc<X>(s: seq<X>, x: X, e: X)
    ensures multiset(s + [x])[e] == multiset(s)[e] + if x == e then 1 else 0
  { }

  lemma SameCounts<X>(a: multiset<X>, b: multiset<X>)
    requires forall x: X :: a[x] == b[x]
    ensures a == b
  { }

  ghost function Weights<T>(lines: seq<seq<T>>, e: (T, T)): (weights: seq<nat>)
    ensures |weights| == |lines|
    ensures forall i :: 0 <= i < |lines| ==> weights[i] == EdgeCount(lines[i], e)
  {
    seq(|lines|, i requires 0 <= i < |lines| => EdgeCount(lines[i], e))
  }

  ghost function Total(weights: seq<nat>): nat {
    if weights == [] then 0 else Total(weights[..|weights| - 1]) + weights[|weights| - 1]
  }

  lemma {:induction false} TotalEdges<T>(lines: seq<seq<T>>, e: (T, T))
    ensures Total(Weights(lines, e)) == multiset(AllEdges(lines))[e]
  {
    if lines != [] {
      var front := lines[..|lines| - 1];
      TotalEdges(front, e);
      EdgeCountMeaning(lines[|lines| - 1], e);
      assert Weights(lines, e)[..|lines| - 1] == Weights(front, e);
    }
  }

  lemma TotalSnoc(front: seq<nat>, last: nat)
    ensures Total(front + [last]) == Total(front) + last
  {
    assert (front + [last])[..|front|] == front;
  }

  lemma {:induction false} TotalCons(first: nat, rest: seq<nat>)
    ensures Total([first] + rest) == first + Total(rest)
  {
    if rest == [] {
      TotalSnoc([], first);
      assert [first] + rest == [] + [first];
    } else {
      var n := |rest| - 1;
      TotalCons(first, rest[..n]);
      TotalSnoc([first] + rest[..n], rest[n]);
      assert [first] + rest == [first] + rest[..n] + [rest[n]];
    }
  }

  /** The weights below `n` that are in `chosen`, together. */
  ghost function TotalOf(weights: seq<nat>, chosen: set<nat>, n: nat): nat
    requires n <= |weights|
  {
    if n == 0 then 0
    else TotalOf(weights, chosen, n - 1) + if n - 1 in chosen then weights[n - 1] else 0
  }

  lemma {:induction false} TotalOfAdds(weights: seq<nat>, chosen: set<nat>, i: nat, n: nat)
    requires n <= |weights| && i < |weights| && i !in chosen
    ensures TotalOf(weights, chosen + {i}, n) == TotalOf(weights, chosen, n) + if i < n then weights[i] else 0
  {
    if n > 0 { TotalOfAdds(weights, chosen, i, n - 1); }
  }

  lemma {:induction false} TotalOfAll(weights: seq<nat>, chosen: set<nat>, n: nat)
    requires n <= |weights| && forall i: nat :: i < n ==> i in chosen
    ensures TotalOf(weights, chosen, n) == Total(weights[..n])
  {
    if n > 0 {
      TotalOfAll(weights, chosen, n - 1);
      TotalSnoc(weights[..n - 1], weights[n - 1]);
      assert weights[..n] == weights[..n - 1] + [weights[n - 1]];
    }
  }

  lemma {:induction false} TotalOfNone(weights: seq<nat>, n: nat)
    requires n <= |weights|
    ensures TotalOf(weights, {}, n) == 0
  {
    if n > 0 { TotalOfNone(weights, n - 1); }
  }

  lemma TotalSelected(weights: seq<nat>, front: seq<nat>, last: nat)
    requires InRange(front, |weights|) && last < |weights|
    ensures Total(Select(weights, front + [last])) == Total(Select(weights, front)) + weights[last]
  {
    assert Select(weights, front + [last]) == Select(weights, front) + [weights[last]];
    TotalSnoc(Select(weights, front), weights[last]);
  }

  lemma {:induction false} TotalOfGroup(weights: seq<nat>, used: set<nat>, group: seq<nat>)
    requires InRange(group, |weights|) && Distinct(group) && Elements(group) !! used
    ensures TotalOf(weights, used + Elements(group), |weights|)
         == TotalOf(weights, used, |weights|) + Total(Select(weights, group))
  {
    if group == [] {
      assert used + Elements(group) == used;
    } else {
      var n := |group| - 1;
      var front, last := group[..n], group[n];
      assert group == front + [last];
      ElementsSnoc(front, last);
      TotalOfGroup(weights, used, front);
      TotalOfAdds(weights, used + Elements(front), last, |weights|);
      assert used + Elements(group) == used + Elements(front) + {last};
      TotalSelected(weights, front, last);
    }
  }

  lemma ElementsSnoc(front: seq<nat>, last: nat)
    ensures Elements(front + [last]) == Elements(front) + {last}
  { }

  lemma {:induction false} EdgesJoin<T>(a: seq<T>, b: seq<T>, e: (T, T))
    requires a != [] && b != [] && End(a) == Start(b)
    ensures EdgeCount(a + b[1..], e) == EdgeCount(a, e) + EdgeCount(b, e)
  {
    var n := |b|;
    if n == 1 {
      assert a + b[1..] == a;
    } else {
      var front, whole := b[..n - 1], a + b[1..];
      EdgesJoin(a, front, e);
      assert whole[..|whole| - 1] == a + front[1..];
      assert whole[|whole| - 2] == b[n - 2];
    }
  }

  lemma {:induction false} EdgesOfJoined<T>(lines: seq<seq<T>>, group: seq<nat>, e: (T, T))
    requires AllNonEmpty(lines) && group != [] && InRange(group, |lines|) && Linked(lines, group)
    ensures EdgeCount(Joined(lines, group), e) == Total(Select(Weights(lines, e), group))
  {
    var n := |group| - 1;
    var front, last := group[..n], group[n];
    var weights := Weights(lines, e);
    assert Select(weights, group) == Select(weights, front) + [weights[last]];
    TotalSnoc(Select(weights, front), weights[last]);
    if n > 0 {
      EdgesOfJoined(lines, front, e);
      JoinedEnds(lines, front);
      EdgesJoin(Joined(lines, front), lines[last], e);
    }
  }

  lemma {:induction false} TotalOfGroups<T>(lines: seq<seq<T>>, used: set<nat>, groups: seq<seq<nat>>, e: (T, T))
    requires AllNonEmpty(lines) && ProperGroups(lines, used, groups) && ValidGroups(groups, |lines|)
    ensures TotalOf(Weights(lines, e), used + Taken(groups), |lines|)
         == TotalOf(Weights(lines, e), used, |lines|) + Total(Weights(Chains(lines, groups), e))
    decreases |groups|
  {
    if groups == [] {
      assert Taken(groups) == {} && used + Taken(groups) == used;
    } else {
      var group, rest := groups[0], groups[1..];
      assert groups == [group] + rest;
      TotalOfGroup(Weights(lines, e), used, group);
      EdgesOfJoined(lines, group, e);
      TotalOfGroups(lines, used + Elements(group), rest, e);
      TakenCons(group, rest);
      assert used + Taken(groups) == used + Elements(group) + Taken(rest);
      WeightsCons(lines, group, rest, e);
      TotalCons(EdgeCount(Joined(lines, group), e), Weights(Chains(lines, rest), e));
    }
  }

  lemma WeightsCons<T>(lines: seq<seq<T>>, group: seq<nat>, rest: seq<seq<nat>>, e: (T, T))
    requires AllNonEmpty(lines) && group != [] && InRange(group, |lines|) && ValidGroups(rest, |lines|)
    ensures ValidGroups([group] + rest, |lines|)
    ensures Weights(Chains(lines, [group] + rest), e) ==
              [EdgeCount(Joined(lines, group), e)] + Weights(Chains(lines, rest), e)
  { }

  lemma ChainsConserve<T>(lines: seq<seq<T>>, groups: seq<seq<nat>>, e: (T, T))
    requires AllNonEmpty(lines) && ProperGroups(lines, {}, groups) && ValidGroups(groups, |lines|)
    requires Taken(groups) == Indices(|lines|)
    ensures Total(Weights(Chains(lines, groups), e)) == Total(Weights(lines, e))
  {
    var weights := Weights(lines, e);
    TotalOfGroups(lines, {}, groups, e);
    TotalOfEither(weights, Taken(groups));
  }

  lemma TotalOfEither(weights: seq<nat>, all: set<nat>)
    requires forall i: nat :: i < |weights| ==> i in all
    ensures TotalOf(weights, {} + all, |weights|) == Total(weights) && TotalOf(weights, {}, |weights|) == 0
  {
    TotalOfNone(weights, |weights|);
    TotalOfAll(weights, all, |weights|);
    assert weights[..|weights|] == weights;
    assert {} + all == all;
  }

  lemma MergeConservesEdge<T>(input: seq<seq<T>>, e: (T, T))
    ensures multiset(AllEdges(Merged(input)))[e] == multiset(AllEdges(input))[e]
  {
    var lines := NonEmpty(input);
    AllGroupsFacts(lines);
    ChainsConserve(lines, AllGroups(lines), e);
    TotalEdges(lines, e);
    TotalEdges(Merged(input), e);
    NonEmptyEdges(input);
  }

  /** Chaining neither loses nor invents a stretch of river. */
  lemma MergeConservesEdges<T>(input: seq<seq<T>>)
    ensures multiset(AllEdges(Merged(input))) == multiset(AllEdges(input))
  {
    forall e: (T, T) ensures multiset(AllEdges(Merged(input)))[e] == multiset(AllEdges(input))[e] {
      MergeConservesEdge(input, e);
    }
    SameCounts(multiset(AllEdges(Merged(input))), multiset(AllEdges(input)));
  }

  /** No line is in two groups. */
  lemma {:induction false} GroupsDisjoint<T>(lines: seq<seq<T>>, used: set<nat>, groups: seq<seq<nat>>, a: nat, b: nat)
    requires AllNonEmpty(lines) && ProperGroups(lines, used, groups) && a < b < |groups|
    ensures Distinct(groups[a]) && Distinct(groups[b]) && Elements(groups[a]) !! Elements(groups[b])
    decreases |groups|
  {
    var group, rest := groups[0], groups[1..];
    assert rest[b - 1] == groups[b];
    ProperGroupsFacts(lines, used + Elements(group), rest);
    if a > 0 {
      GroupsDisjoint(lines, used + Elements(group), rest, a - 1, b - 1);
    } else {
      assert forall i :: i in Elements(groups[b]) ==> i in Taken(rest);
      GroupIsDistinct(lines, used + Elements(group), rest, b - 1);
    }
  }

  lemma {:induction false} GroupIsDistinct<T>(lines: seq<seq<T>>, used: set<nat>, groups: seq<seq<nat>>, a: nat)
    requires AllNonEmpty(lines) && ProperGroups(lines, used, groups) && a < |groups|
    ensures Distinct(groups[a])
    decreases |groups|
  {
    if a > 0 {
      GroupIsDistinct(lines, used + Elements(groups[0]), groups[1..], a - 1);
    }
  }

  /** Each non-empty line is used exactly once. */
  lemma LinesUsedOnce<T>(lines: seq<seq<T>>)
    requires AllNonEmpty(lines)
    ensures var groups := AllGroups(lines);
            && Taken(groups) == Indices(|lines|)
            && (forall a :: 0 <= a < |groups| ==> Distinct(groups[a]))
            && (forall a, b :: 0 <= a < b < |groups| ==> Elements(groups[a]) !! Elements(groups[b]))
  {
    var groups := AllGroups(lines);
    AllGroupsFacts(lines);
    forall a | 0 <= a < |groups| ensures Distinct(groups[a]) {
      GroupIsDistinct(lines, {}, groups, a);
    }
    forall a, b | 0 <= a < b < |groups| ensures Elements(groups[a]) !! Elements(groups[b]) {
      GroupsDisjoint(lines, {}, groups, a, b);
    }
  }

  // ---------------------------------------------------------------------------------------------
  // Headwaters
  // ---------------------------------------------------------------------------------------------

  /** Only the first line of a chain can be a headwater. */
  lemma HeadwaterBegins<T>(lines: seq<seq<T>>, group: seq<nat>, k: nat)
    requires AllNonEmpty(lines) && InRange(group, |lines|) && Linked(lines, group) && 0 < k < |group|
    ensures !Headwater(lines, group[k])
  {
    assert End(lines[group[k - 1]]) in Ends(lines);
  }

  lemma OnlyFirstIsHeadwater<T>(lines: seq<seq<T>>, group: seq<nat>, i: nat)
    requires AllNonEmpty(lines) && group != [] && InRange(group, |lines|) && Linked(lines, group)
    requires i < |lines| && Headwater(lines, i) && i != group[0]
    ensures i !in group
  {
    if k :| 0 <= k < |group| && group[k] == i {
      HeadwaterBegins(lines, group, k);
    }
  }

  lemma {:induction false} GroupsAppend<T>(lines: seq<seq<T>>, a: seq<nat>, b: seq<nat>, used: set<nat>)
    requires AllNonEmpty(lines) && InRange(a, |lines|) && InRange(b, |lines|)
    ensures Groups(lines, a + b, used)
         == Groups(lines, a, used) + Groups(lines, b, used + Taken(Groups(lines, a, used)))
  {
    var first := Groups(lines, a, used);
    if a == [] {
      assert a + b == b && Taken(first) == {} && used + Taken(first) == used;
    } else {
      assert (a + b)[1..] == a[1..] + b;
      if a[0] in used {
        GroupsAppend(lines, a[1..], b, used);
      } else {
        var group := Group(lines, used, a[0]);
        var now := used + Elements(group);
        GroupsAppend(lines, a[1..], b, now);
        TakenCons(group, Groups(lines, a[1..], now));
        assert used + Taken(first) == now + Taken(Groups(lines, a[1..], now));
      }
    }
  }

  ghost predicate BegunIn(groups: seq<seq<nat>>, order: seq<nat>) {
    forall g :: 0 <= g < |groups| ==> groups[g] != [] && groups[g][0] in order
  }

  lemma {:induction false} GroupsBegunIn<T>(lines: seq<seq<T>>, order: seq<nat>, used: set<nat>)
    requires AllNonEmpty(lines) && InRange(order, |lines|)
    ensures BegunIn(Groups(lines, order, used), order)
  {
    if order != [] {
      var rest := order[1..];
      assert forall i :: i in rest ==> i in order;
      if order[0] in used {
        GroupsBegunIn(lines, rest, used);
      } else {
        var group := Group(lines, used, order[0]);
        GroupsBegunIn(lines, rest, used + Elements(group));
        assert group[0] == order[0];
      }
    }
  }

  /** Unused headwaters each begin a chain of their own, in order. */
  lemma {:induction false} HeadwaterGroups<T>(lines: seq<seq<T>>, heads: seq<nat>, used: set<nat>)
    requires AllNonEmpty(lines) && InRange(heads, |lines|) && Distinct(heads)
    requires forall k :: 0 <= k < |heads| ==> Headwater(lines, heads[k]) && heads[k] !in used
    ensures var groups := Groups(lines, heads, used);
            |groups| == |heads| && forall g :: 0 <= g < |groups| ==> groups[g] != [] && groups[g][0] == heads[g]
  {
    if heads != [] {
      var group := Group(lines, used, heads[0]);
      GroupIsProper(lines, used, heads[0]);
      forall k | 0 < k < |heads| ensures heads[k] !in Elements(group) {
        OnlyFirstIsHeadwater(lines, group, heads[k]);
      }
      HeadwaterGroups(lines, heads[1..], used + Elements(group));
    }
  }

  lemma {:induction false} RankedDistinct<T>(lines: seq<seq<T>>, head: bool, n: nat)
    requires AllNonEmpty(lines) && n <= |lines|
    ensures Distinct(Ranked(lines, head, n))
  {
    if n > 0 {
      RankedDistinct(lines, head, n - 1);
      var before, order := Ranked(lines, head, n - 1), Ranked(lines, head, n);
      forall a, b | 0 <= a < b < |order| ensures order[a] != order[b] {
        assert before[a] in before;
      }
    }
  }

  /** The first chains begin at the headwaters, one each and in input order; no later chain does. */
  lemma HeadwatersFirst<T>(lines: seq<seq<T>>)
    requires AllNonEmpty(lines)
    ensures var heads, groups := Ranked(lines, true, |lines|), AllGroups(lines);
            && |heads| <= |groups|
            && (forall g :: 0 <= g < |heads| ==> groups[g] != [] && groups[g][0] == heads[g])
            && (forall g :: |heads| <= g < |groups| ==>
                 groups[g] != [] && groups[g][0] < |lines| && !Headwater(lines, groups[g][0]))
  {
    var heads, others := Ranked(lines, true, |lines|), Ranked(lines, false, |lines|);
    var first := Groups(lines, heads, {});
    RankedDistinct(lines, true, |lines|);
    HeadwaterGroups(lines, heads, {});
    GroupsAppend(lines, heads, others, {});
    GroupsBegunIn(lines, others, {} + Taken(first));
  }
}
