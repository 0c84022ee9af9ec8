/**
 Completing the staged files with the live count: a contest that the files have already published prevails.
 */
module ElectionLive {
  import opened Options
  import opened ElectionStage
  import opened ElectionRollup
  import opened Planar

  function ContestOf(office: string, election: nat): Cell { Cell(office, election, "", "") }

  /** A contest is published once its known votes add up to more than zero. */
  ghost predicate Published(totalVotes: Column, contest: Cell) {
    contest in Parents(totalVotes, Totals, Contest) &&
    var sum := SqlSum(GroupTally(totalVotes, Totals, Contest, contest)); sum.Some? && sum.value > 0
  }

  /** The rows of a contest, in all places. */
  ghost function RowsOfContest(totalVotes: Column, office: string, election: nat): set<Cell> {
    set c | c in totalVotes && c.office == office && c.election == election
  }

  lemma PublishedMeans(totalVotes: Column, office: string, election: nat)
    ensures Published(totalVotes, ContestOf(office, election)) <==>
              Sum(totalVotes, RowsOfContest(totalVotes, office, election)) > 0
  {
    var contest, rows := ContestOf(office, election), RowsOfContest(totalVotes, office, election);
    assert Below(totalVotes, Totals, Contest, contest) == rows;
    HasParent(totalVotes, Totals, Contest, contest);
    if |Present(totalVotes, rows)| == 0 { NoneAddsNothing(totalVotes, rows); }
  }

  lemma {:induction false} NoneAddsNothing(column: Column, cells: set<Cell>)
    requires cells <= column.Keys && Present(column, cells) == {}
    ensures Sum(column, cells) == 0
    decreases cells
  {
    if cells != {} {
      var c :| c in cells;
      SumWithoutCell(column, cells, c);
      assert c !in Present(column, cells);
      NoneAddsNothing(column, cells - {c});
    }
  }

  /** An item of the live count: the office and round it names, and the row that is left of it after the
      filters, if any. */
  datatype Item<R> = Item(office: Option<string>, election: nat, row: Option<R>)

  predicate Open<R>(item: Item<R>, published: set<Cell>) {
    item.office.None? || ContestOf(item.office.value, item.election) !in published
  }

  /** The items of contests still to be published. */
  function OpenItems<R>(items: seq<Item<R>>, published: set<Cell>): (open: seq<Item<R>>)
    ensures forall i :: i in open ==> i in items && Open(i, published)
  {
    if items == [] then [] else
    (if Open(items[0], published) then [items[0]] else []) + OpenItems(items[1..], published)
  }

  /** The rows that are left, in order. */
  function RowsOf<R>(items: seq<Item<R>>): (rows: seq<R>)
    ensures forall r :: r in rows ==> exists i :: i in items && i.row == Some(r)
  {
    if items == [] then [] else
    var rest := RowsOf(items[1..]);
    assert forall i :: i in items[1..] ==> i in items;
    if items[0].row.Some? then
      assert items[0] in items;
      [items[0].row.value] + rest
    else rest
  }

  function OpenRows<R>(items: seq<Item<R>>, published: set<Cell>): seq<R> { RowsOf(OpenItems(items, published)) }

  /** The item is loaded: there is a row left of it, and its contest is still to be published. */
  predicate Loads<R>(item: Item<R>, published: set<Cell>) {
    item.row.Some? && (item.office.Some? ==> Cell(item.office.value, item.election, "", "") !in published)
  }

  /** `at` are the positions, from `n` on, of the items that are loaded. */
  ghost predicate LoadsAt<R>(items: seq<Item<R>>, published: set<Cell>, at: seq<nat>, n: nat) {
    && Ascending(at) && InRange(at, |items|)
    && forall i: nat :: i in at <==> n <= i < |items| && Loads(items[i], published)
  }

  lemma OpenRowsCons<R>(items: seq<Item<R>>, published: set<Cell>)
    requires items != []
    ensures OpenRows(items, published) ==
              (if Loads(items[0], published) then [items[0].row.value] else []) + OpenRows(items[1..], published)
  {
    var rest := OpenItems(items[1..], published);
    assert OpenItems(items, published) == if Open(items[0], published) then [items[0]] + rest else rest;
  }

  lemma LoadsOneMore<R>(items: seq<Item<R>>, published: set<Cell>, at: seq<nat>, n: nat)
    requires n < |items| && LoadsAt(items, published, at, n + 1)
    ensures LoadsAt(items, published, if Loads(items[n], published) then [n] + at else at, n)
  {
    assert forall m :: 0 <= m < |at| ==> at[m] in at;
  }

  /** These rows are those of the items at these positions. */
  ghost predicate RowsAt<R>(items: seq<Item<R>>, at: seq<nat>, rows: seq<R>)
    requires InRange(at, |items|)
  {
    |rows| == |at| && forall m :: 0 <= m < |at| ==> items[at[m]].row == Some(rows[m])
  }

  lemma {:induction false} OpenRowsFrom<R>(items: seq<Item<R>>, published: set<Cell>, n: nat) returns (at: seq<nat>)
    requires n <= |items|
    ensures LoadsAt(items, published, at, n) && RowsAt(items, at, OpenRows(items[n..], published))
    decreases |items| - n
  {
    if n == |items| {
      at := [];
    } else {
      var rest := OpenRowsFrom(items, published, n + 1);
      assert items[n..][0] == items[n] && items[n..][1..] == items[n + 1..];
      OpenRowsCons(items[n..], published);
      LoadsOneMore(items, published, rest, n);
      at := if Loads(items[n], published) then [n] + rest else rest;
    }
  }

  /** The rows to load are those of the open items that have one, each once and in order. */
  lemma OpenRowsAre<R>(items: seq<Item<R>>, published: set<Cell>) returns (at: seq<nat>)
    ensures LoadsAt(items, published, at, 0) && RowsAt(items, at, OpenRows(items, published))
  {
    assert items[0..] == items;
    at := OpenRowsFrom(items, published, 0);
  }

  /** Rows name the contest that their items name. */
  ghost predicate DetailItems(items: seq<Item<DetailRow>>) {
    forall i :: i in items && i.row.Some? ==>
      i.office == Some(i.row.value.office) && i.election == i.row.value.election && |i.row.value.counts| == FIELDS
  }

  ghost predicate PartyItems(items: seq<Item<PartyRow>>) {
    forall i :: i in items && i.row.Some? ==> i.office == Some(i.row.value.office) && i.election == i.row.value.election
  }

  ghost predicate CandidateItems(items: seq<Item<CandidateRow>>) {
    forall i :: i in items && i.row.Some? ==> i.office == Some(i.row.value.office) && i.election == i.row.value.election
  }

  method PublishedContests(totalVotes: Column) returns (published: set<Cell>)
    ensures forall k :: k in published <==> Published(totalVotes, k)
  {
    var groups := GroupBy(totalVotes, Totals, Contest);
    published := set k | k in groups && SqlSum(groups[k]).Some? && SqlSum(groups[k]).value > 0;
  }

  /** Loads the rows of open contests, unless the live count has no turnout item for any of them. */
  method LoadLive(stage: Stage, details: seq<Item<DetailRow>>, parties: seq<Item<PartyRow>>,
                  candidates: seq<Item<CandidateRow>>, limit: nat)
      returns (loaded: bool, published: set<Cell>)
    requires DetailItems(details)
    modifies stage
    ensures forall k :: k in published <==> Published(old(stage.totals)[TOTAL_VOTES], k)
    ensures loaded <==> exists i :: i in details && Open(i, published)
    ensures Complete(OpenRows(details, published))
    ensures stage.totals ==
              if loaded then AddTotals(old(stage.totals), OpenRows(details, published)) else old(stage.totals)
    ensures stage.parties ==
              if loaded then Accumulated(old(stage.parties), PartyEntries(OpenRows(parties, published)))
              else old(stage.parties)
    ensures stage.Value() ==
              if loaded then Loaded(old(stage.Value()), OpenRows(candidates, published), limit) else old(stage.Value())
  {
    published := PublishedContests(stage.totals[TOTAL_VOTES]);
    var open := OpenItems(details, published);
    SomeOpen(details, published);
    CompleteRows(details, published);
    if open == [] { return false, published; }
    stage.LoadDetailRows(RowsOf(open), limit);
    stage.LoadPartyRows(OpenRows(parties, published), limit);
    stage.LoadCandidateRows(OpenRows(candidates, published), limit);
    return true, published;
  }

  lemma {:induction false} SomeOpen<R>(items: seq<Item<R>>, published: set<Cell>)
    ensures OpenItems(items, published) != [] <==> exists i :: i in items && Open(i, published)
  {
    if items != [] {
      SomeOpen(items[1..], published);
      assert items == [items[0]] + items[1..];
      if OpenItems(items, published) != [] {
        assert OpenItems(items, published)[0] in OpenItems(items, published);
      }
    }
  }

  lemma CompleteRows(items: seq<Item<DetailRow>>, published: set<Cell>)
    requires DetailItems(items)
    ensures Complete(OpenRows(items, published))
  {
    var rows := OpenRows(items, published);
    forall k | 0 <= k < |rows| ensures |rows[k].counts| == FIELDS {
      assert rows[k] in rows;
    }
  }

  // ---------------------------------------------------------------------------------------------
  // Published contests
  // ---------------------------------------------------------------------------------------------

  lemma KeptUnlessMentioned(column: Column, batch: seq<Entry>, cell: Cell)
    requires !Mentions(batch, cell)
    ensures Get(Accumulated(column, batch), cell) == Get(column, cell)
  {
    AccumulatedAreSums(column, batch, cell);
    NotMentioned(batch, cell);
  }

  lemma {:induction false} PartyRowsMention(rows: seq<PartyRow>, cell: Cell)
    requires forall r :: r in rows ==> ContestOf(r.office, r.election) != ContestOf(cell.office, cell.election)
    ensures !Mentions(PartyEntries(rows), cell)
  {
    if rows != [] {
      var n := |rows| - 1;
      PartyRowsMention(rows[..n], cell);
      assert rows[n] in rows;
      if HasPartyVotes(rows[n]) {
        MentionsSnoc(PartyEntries(rows[..n]), PartyEntries(rows)[|PartyEntries(rows)| - 1], cell);
      }
    }
  }

  lemma {:induction false} CandidateRowsKeep(t: Tables, rows: seq<CandidateRow>, cell: Cell)
    requires forall r :: r in rows ==> ContestOf(r.office, r.election) != ContestOf(cell.office, cell.election)
    ensures Get(AddRows(t, rows).votes, cell) == Get(t.votes, cell)
  {
    if rows != [] {
      CandidateRowsKeep(t, rows[..|rows| - 1], cell);
      assert rows[|rows| - 1] in rows;
    }
  }

  /** Whatever the live count says of a published contest, its votes, parties and totals stay as staged. */
  lemma PublishedPrevails(t: Tables, parties: Column, totals: Totals, published: set<Cell>, cell: Cell, f: nat,
                          limit: nat,
                          details: seq<Item<DetailRow>>, partyItems: seq<Item<PartyRow>>,
                          candidates: seq<Item<CandidateRow>>)
    requires ContestOf(cell.office, cell.election) in published && f < FIELDS && Complete(OpenRows(details, published))
    requires DetailItems(details) && PartyItems(partyItems) && CandidateItems(candidates)
    ensures Get(AddTotals(totals, OpenRows(details, published))[f], cell) == Get(totals[f], cell)
    ensures Get(Accumulated(parties, PartyEntries(OpenRows(partyItems, published))), cell) == Get(parties, cell)
    ensures Get(Loaded(t, OpenRows(candidates, published), limit).votes, cell) == Get(t.votes, cell)
  {
    var rows := OpenRows(details, published);
    forall i | 0 <= i < |rows| ensures FieldEntries(rows, f)[i].cell != cell {
      assert rows[i] in rows;
    }
    KeptUnlessMentioned(totals[f], FieldEntries(rows, f), cell);
    PartyRowsMention(OpenRows(partyItems, published), cell);
    KeptUnlessMentioned(parties, PartyEntries(OpenRows(partyItems, published)), cell);
    CandidateRowsKeep(t, OpenRows(candidates, published), cell);
    LoadedVotes(t, OpenRows(candidates, published), limit);
  }
}
