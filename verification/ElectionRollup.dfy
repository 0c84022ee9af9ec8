/**
 Rolling the staged municipalities up to their states and to the country. Every statement inserts its
 groups into the table that it reads, so the rows inserted before must not be counted again.
 */
module ElectionRollup {
  import opened Options
  import opened ElectionStage

  datatype Table = Votes | Parties | Totals

  /** What a statement groups by: the state, the country, or the whole contest. */
  datatype Level = State | National | Contest

  /** Staged codes are municipal: seven digits. */
  predicate Municipal(code: string) {
    |code| == 7 && forall i :: 0 <= i < |code| ==> '0' <= code[i] <= '9'
  }

  function Above(cell: Cell, level: Level): Cell {
    match level
    case State => cell.(code := if |cell.code| >= 2 then cell.code[..2] else cell.code)
    case National => cell.(code := "BR")
    case Contest => cell.(code := "", item := "")
  }

  /** The rows that a statement reads. */
  predicate Selected(table: Table, level: Level, cell: Cell) {
    match level
    case State => |cell.code| == 7 && (table.Votes? ==> cell.office != "mayor" && cell.office != "councillor")
    case National => |cell.code| == 7 && (table.Votes? ==> cell.office == "president")
    case Contest => true
  }

  ghost function Below(column: Column, table: Table, level: Level, parent: Cell): set<Cell> {
    set c | c in column && Selected(table, level, c) && Above(c, level) == parent
  }

  // ---------------------------------------------------------------------------------------------
  // SQL aggregates
  // ---------------------------------------------------------------------------------------------

  /** COUNT(*), COUNT(x) and the sum of what is not NULL. */
  datatype Tally = Tally(rows: nat, present: nat, sum: int)

  function OrZero(value: Option<int>): int { if value.Some? then value.value else 0 }

  function Counted(t: Tally, value: Option<int>): Tally {
    Tally(t.rows + 1, t.present + (if value.Some? then 1 else 0), t.sum + OrZero(value))
  }

  /** SUM skips NULLs, and is NULL when there is nothing else. */
  function SqlSum(t: Tally): Option<int> { if t.present == 0 then None else Some(t.sum) }

  /** SUM where every row has a value, NULL otherwise. */
  function StrictSum(t: Tally): Option<int> { if t.present == t.rows then SqlSum(t) else None }

  function Aggregated(table: Table, t: Tally): Option<int> {
    if table.Totals? then StrictSum(t) else SqlSum(t)
  }

  ghost function Present(column: Column, cells: set<Cell>): set<Cell>
    requires cells <= column.Keys
  {
    set c | c in cells && column[c].Some?
  }

  ghost function Sum(column: Column, cells: set<Cell>): int
    requires cells <= column.Keys
  {
    if cells == {} then 0 else
    var c :| c in cells;
    OrZero(column[c]) + Sum(column, cells - {c})
  }

  ghost function TallyOf(column: Column, cells: set<Cell>): Tally
    requires cells <= column.Keys
  {
    Tally(|cells|, |Present(column, cells)|, Sum(column, cells))
  }

  lemma {:induction false} SumWithoutCell(column: Column, cells: set<Cell>, c: Cell)
    requires cells <= column.Keys && c in cells
    ensures Sum(column, cells) == OrZero(column[c]) + Sum(column, cells - {c})
    decreases |cells|
  {
    var first :| first in cells && Sum(column, cells) == OrZero(column[first]) + Sum(column, cells - {first});
    if first != c {
      SumWithoutCell(column, cells - {first}, c);
      SumWithoutCell(column, cells - {c}, first);
      assert cells - {first} - {c} == cells - {c} - {first};
    }
  }

  lemma PresentWithCell(column: Column, cells: set<Cell>, c: Cell)
    requires cells <= column.Keys && c in column && c !in cells
    ensures |Present(column, cells + {c})| == |Present(column, cells)| + if column[c].Some? then 1 else 0
  {
    if column[c].Some? {
      assert Present(column, cells + {c}) == Present(column, cells) + {c};
    } else {
      assert Present(column, cells + {c}) == Present(column, cells);
    }
  }

  lemma TallyWithCell(column: Column, cells: set<Cell>, c: Cell)
    requires cells <= column.Keys && c in column && c !in cells
    ensures TallyOf(column, cells + {c}) == Counted(TallyOf(column, cells), column[c])
  {
    SumWithoutCell(column, cells + {c}, c);
    PresentWithCell(column, cells, c);
    assert cells + {c} - {c} == cells;
  }

  lemma {:induction false} SumUnion(column: Column, a: set<Cell>, b: set<Cell>)
    requires a + b <= column.Keys && a !! b
    ensures Sum(column, a + b) == Sum(column, a) + Sum(column, b)
    decreases |a|
  {
    if a == {} {
      assert a + b == b;
    } else {
      var c :| c in a;
      SumWithoutCell(column, a, c);
      SumWithoutCell(column, a + b, c);
      assert a + b - {c} == (a - {c}) + b;
      SumUnion(column, a - {c}, b);
    }
  }

  lemma {:induction false} SubsetSize(a: set<Cell>, b: set<Cell>)
    requires a <= b
    ensures |a| <= |b| && (|a| == |b| ==> a == b)
  {
    assert b == a + (b - a);
  }

  ghost predicate AllPresent(column: Column, cells: set<Cell>)
    requires cells <= column.Keys
  {
    forall c :: c in cells ==> column[c].Some?
  }

  /** The guarded sum is NULL exactly when some row is. */
  lemma StrictSumMeaning(column: Column, cells: set<Cell>)
    requires cells <= column.Keys && cells != {}
    ensures StrictSum(TallyOf(column, cells)) == if AllPresent(column, cells) then Some(Sum(column, cells)) else None
    ensures AllPresent(column, cells) ==> SqlSum(TallyOf(column, cells)) == Some(Sum(column, cells))
  {
    var present := Present(column, cells);
    SubsetSize(present, cells);
    if AllPresent(column, cells) {
      assert present == cells;
      var c :| c in cells;
      assert cells == (cells - {c}) + {c};
    }
  }

  // ---------------------------------------------------------------------------------------------
  // The statements
  // ---------------------------------------------------------------------------------------------

  ghost function Parents(column: Column, table: Table, level: Level): set<Cell> {
    set c | c in column && Selected(table, level, c) :: Above(c, level)
  }

  /** The tally of one group. */
  ghost function GroupTally(column: Column, table: Table, level: Level, parent: Cell): Tally {
    TallyOf(column, Below(column, table, level, parent))
  }

  ghost predicate AreTallies(groups: map<Cell, Tally>, column: Column, table: Table, level: Level) {
    groups.Keys == Parents(column, table, level) &&
    forall p :: p in groups ==> groups[p] == GroupTally(column, table, level, p)
  }

  /** The rows that one statement inserts. */
  ghost function Rows(column: Column, table: Table, level: Level): Column {
    map p | p in Parents(column, table, level) :: Aggregated(table, GroupTally(column, table, level, p))
  }

  ghost predicate Reads(read: Column, column: Column, left: set<Cell>) {
    left <= column.Keys && read == map c | c in column && c !in left :: column[c]
  }

  lemma ReadsOneMore(read: Column, column: Column, left: set<Cell>, c: Cell)
    requires Reads(read, column, left) && c in left
    ensures c !in read && Reads(read[c := column[c]], column, left - {c})
  { }

  /** GROUP BY: one scan of the table, in any order. */
  method GroupBy(column: Column, table: Table, level: Level) returns (groups: map<Cell, Tally>)
    ensures AreTallies(groups, column, table, level)
  {
    groups := map[];
    var left := column.Keys;
    ghost var read: Column := map[];
    while left != {}
      invariant Reads(read, column, left)
      invariant AreTallies(groups, read, table, level)
      decreases left
    {
      var c :| c in left;
      var p := Above(c, level);
      ReadsOneMore(read, column, left, c);
      if Selected(table, level, c) {
        RowJoinsGroup(groups, read, c, column[c], table, level);
        groups := groups[p := Counted(SoFar(groups, p), column[c])];
      } else {
        RowSkipped(groups, read, c, column[c], table, level);
      }
      left := left - {c};
      read := read[c := column[c]];
    }
    assert read == column;
  }

  lemma {:induction false} SameTally(a: Column, b: Column, cells: set<Cell>)
    requires cells <= a.Keys && cells <= b.Keys
    requires forall c :: c in cells ==> a[c] == b[c]
    ensures TallyOf(a, cells) == TallyOf(b, cells)
    decreases |cells|
  {
    if cells != {} {
      var c :| c in cells;
      SameTally(a, b, cells - {c});
      TallyWithCell(a, cells - {c}, c);
      TallyWithCell(b, cells - {c}, c);
      assert cells - {c} + {c} == cells;
    }
  }

  predicate Joins(c: Cell, table: Table, level: Level, parent: Cell) {
    Selected(table, level, c) && Above(c, level) == parent
  }

  lemma BelowGrows(read: Column, c: Cell, value: Option<int>, table: Table, level: Level, q: Cell)
    ensures Below(read[c := value], table, level, q) ==
            Below(read, table, level, q) + if Joins(c, table, level, q) then {c} else {}
  { }

  lemma GroupTallyGrows(read: Column, c: Cell, value: Option<int>, table: Table, level: Level, q: Cell)
    requires c !in read
    ensures GroupTally(read[c := value], table, level, q) ==
            if Joins(c, table, level, q) then Counted(GroupTally(read, table, level, q), value)
            else GroupTally(read, table, level, q)
  {
    var before := Below(read, table, level, q);
    BelowGrows(read, c, value, table, level, q);
    SameTally(read[c := value], read, before);
    if Joins(c, table, level, q) {
      TallyWithCell(read[c := value], before, c);
    }
  }

  lemma ParentsGrow(read: Column, c: Cell, value: Option<int>, table: Table, level: Level)
    ensures Parents(read[c := value], table, level) ==
            Parents(read, table, level) + if Selected(table, level, c) then {Above(c, level)} else {}
  { }

  lemma HasParent(column: Column, table: Table, level: Level, p: Cell)
    ensures p in Parents(column, table, level) <==> Below(column, table, level, p) != {}
  {
    if p in Parents(column, table, level) {
      var c :| c in column && Selected(table, level, c) && Above(c, level) == p;
      assert c in Below(column, table, level, p);
    }
  }

  /** The tally before its first row. */
  function SoFar(groups: map<Cell, Tally>, p: Cell): Tally {
    if p in groups then groups[p] else Tally(0, 0, 0)
  }

  lemma NothingSoFar(groups: map<Cell, Tally>, read: Column, table: Table, level: Level, p: Cell)
    requires AreTallies(groups, read, table, level)
    ensures SoFar(groups, p) == GroupTally(read, table, level, p)
  {
    if p !in groups { HasParent(read, table, level, p); }
  }

  lemma TallyGrows(groups: map<Cell, Tally>, read: Column, c: Cell, value: Option<int>, table: Table, level: Level,
                   q: Cell)
    requires c !in read && Selected(table, level, c) && AreTallies(groups, read, table, level)
    requires q in groups || q == Above(c, level)
    ensures GroupTally(read[c := value], table, level, q) ==
            if q == Above(c, level) then Counted(SoFar(groups, q), value) else groups[q]
  {
    NothingSoFar(groups, read, table, level, q);
    GroupTallyGrows(read, c, value, table, level, q);
  }

  lemma RowJoinsGroup(groups: map<Cell, Tally>, read: Column, c: Cell, value: Option<int>, table: Table, level: Level)
    requires c !in read && Selected(table, level, c) && AreTallies(groups, read, table, level)
    ensures var p := Above(c, level);
            AreTallies(groups[p := Counted(SoFar(groups, p), value)], read[c := value], table, level)
  {
    var p := Above(c, level);
    var more := groups[p := Counted(SoFar(groups, p), value)];
    assert more.Keys == Parents(read[c := value], table, level) by {
      ParentsGrow(read, c, value, table, level);
    }
    forall q | q in more
      ensures more[q] == GroupTally(read[c := value], table, level, q)
    {
      TallyGrows(groups, read, c, value, table, level, q);
    }
  }

  lemma RowSkipped(groups: map<Cell, Tally>, read: Column, c: Cell, value: Option<int>, table: Table, level: Level)
    requires c !in read && !Selected(table, level, c) && AreTallies(groups, read, table, level)
    ensures AreTallies(groups, read[c := value], table, level)
  {
    ParentsGrow(read, c, value, table, level);
    forall q | q in groups
      ensures GroupTally(read[c := value], table, level, q) == groups[q]
    {
      GroupTallyGrows(read, c, value, table, level, q);
    }
  }

  /** The table after one statement. */
  ghost function Inserted(column: Column, table: Table, level: Level): Column {
    column + Rows(column, table, level)
  }

  /** The inserted rows must be new to the table, as its primary key asks. */
  method InsertGroups(column: Column, table: Table, level: Level) returns (r: Column)
    requires column.Keys !! Parents(column, table, level)
    ensures r == Inserted(column, table, level)
  {
    var groups := GroupBy(column, table, level);
    r := column + map p | p in groups :: Aggregated(table, groups[p]);
  }

  /** The table after both statements. */
  ghost function RolledUp(column: Column, table: Table): Column {
    Inserted(Inserted(column, table, State), table, National)
  }

  method RollUp(column: Column, table: Table) returns (r: Column)
    requires AllMunicipal(column)
    ensures r == RolledUp(column, table)
  {
    RowsAreNew(column, table);
    r := InsertGroups(column, table, State);
    r := InsertGroups(r, table, National);
  }

  // ---------------------------------------------------------------------------------------------
  // What the parents hold
  // ---------------------------------------------------------------------------------------------

  ghost predicate AllMunicipal(column: Column) { forall c :: c in column ==> Municipal(c.code) }

  /** Votes are never NULL; only the totals can be. */
  ghost predicate Staged(column: Column, table: Table) {
    AllMunicipal(column) && (!table.Totals? ==> AllPresent(column, column.Keys))
  }

  /** The sum, NULL as soon as one addend is. */
  ghost function NullSum(column: Column, cells: set<Cell>): Option<int>
    requires cells <= column.Keys
  {
    if AllPresent(column, cells) then Some(Sum(column, cells)) else None
  }

  predicate IsState(code: string) { |code| == 2 && code != "BR" }

  lemma StateCode(c: Cell)
    requires Municipal(c.code)
    ensures IsState(Above(c, State).code)
  {
    assert c.code[..2][0] == c.code[0];
  }

  lemma StatesAreNew(column: Column, table: Table)
    requires AllMunicipal(column)
    ensures forall p :: p in Parents(column, table, State) ==> IsState(p.code)
    ensures column.Keys !! Parents(column, table, State)
  {
    forall p | p in Parents(column, table, State) ensures IsState(p.code) {
      var c :| c in column && Selected(table, State, c) && Above(c, State) == p;
      StateCode(c);
    }
  }

  /** Neither states nor the country share a code with what is already there. */
  lemma RowsAreNew(column: Column, table: Table)
    requires AllMunicipal(column)
    ensures forall p :: p in Parents(column, table, State) ==> IsState(p.code)
    ensures column.Keys !! Parents(column, table, State)
    ensures forall p :: p in Parents(Inserted(column, table, State), table, National) ==> p.code == "BR"
    ensures Inserted(column, table, State).Keys !! Parents(Inserted(column, table, State), table, National)
  {
    StatesAreNew(column, table);
    var states := Inserted(column, table, State);
    forall c | c in states ensures c.code != "BR" {
      assert c in column || c in Parents(column, table, State);
    }
  }

  lemma InsertedKeeps(column: Column, table: Table)
    requires AllMunicipal(column)
    ensures forall c :: c in column ==>
              c in Inserted(column, table, State) && Inserted(column, table, State)[c] == column[c]
  {
    RowsAreNew(column, table);
  }

  lemma StatesNotBelow(column: Column, table: Table, p: Cell)
    requires AllMunicipal(column)
    ensures Below(Inserted(column, table, State), table, National, p) == Below(column, table, National, p)
  {
    RowsAreNew(column, table);
  }

  /** The state rows are not counted again: the second statement sees the municipalities only. */
  lemma StatesNotCounted(column: Column, table: Table, p: Cell)
    requires AllMunicipal(column)
    ensures GroupTally(Inserted(column, table, State), table, National, p) == GroupTally(column, table, National, p)
    ensures p in Parents(Inserted(column, table, State), table, National) <==> p in Parents(column, table, National)
  {
    StatesNotBelow(column, table, p);
    HasParent(column, table, National, p);
    HasParent(Inserted(column, table, State), table, National, p);
    var below := Below(column, table, National, p);
    assert TallyOf(Inserted(column, table, State), below) == TallyOf(column, below) by {
      InsertedKeeps(column, table);
      SameTally(Inserted(column, table, State), column, below);
    }
  }

  lemma GroupValue(column: Column, table: Table, level: Level, p: Cell)
    requires Staged(column, table) && p in Parents(column, table, level)
    ensures Aggregated(table, GroupTally(column, table, level, p)) == NullSum(column, Below(column, table, level, p))
  {
    HasParent(column, table, level, p);
    StrictSumMeaning(column, Below(column, table, level, p));
  }

  /** The municipal rows of the same contest and item as `p`; votes for mayors and councillors stay where
      they were cast. */
  ghost function StateMembers(column: Column, table: Table, p: Cell): set<Cell> {
    set c | && c in column && |c.code| == 7 && c.code[..2] == p.code
            && c.office == p.office && c.election == p.election && c.item == p.item
            && (table == Votes ==> c.office != "mayor" && c.office != "councillor")
  }

  /** Of the candidates, only those for president have a national row. */
  ghost function CountryMembers(column: Column, table: Table, p: Cell): set<Cell> {
    set c | && c in column && |c.code| == 7 && p.code == "BR"
            && c.office == p.office && c.election == p.election && c.item == p.item
            && (table == Votes ==> c.office == "president")
  }

  lemma MembersAreBelow(column: Column, table: Table, p: Cell)
    ensures StateMembers(column, table, p) == Below(column, table, State, p)
    ensures CountryMembers(column, table, p) == Below(column, table, National, p)
  { }

  /** Municipal rows stay as they were. Every state row is the sum of its municipalities, and every
      national row the sum of all municipalities: NULL exactly when one of them is. There are no others. */
  lemma ParentsAreSums(column: Column, table: Table, p: Cell)
    requires Staged(column, table)
    ensures var r := RolledUp(column, table);
            var state, country := StateMembers(column, table, p), CountryMembers(column, table, p);
            && (p in r <==> p in column || state != {} || country != {})
            && (p in column ==> r[p] == column[p])
            && (state != {} ==> IsState(p.code) && r[p] == NullSum(column, state))
            && (country != {} ==> p.code == "BR" && r[p] == NullSum(column, country))
  {
    MembersAreBelow(column, table, p);
    RowsAreNew(column, table);
    StatesNotCounted(column, table, p);
    HasParent(column, table, State, p);
    HasParent(column, table, National, p);
    if p in Parents(column, table, State) { GroupValue(column, table, State, p); }
    if p in Parents(column, table, National) { GroupValue(column, table, National, p); }
  }

  ghost function StatesUnder(r: Column, p: Cell): set<Cell> {
    set s | s in r && IsState(s.code) && s.(code := "BR") == p
  }

  ghost function UnderAny(column: Column, table: Table, states: set<Cell>): set<Cell> {
    set c | c in column && Selected(table, State, c) && Above(c, State) in states
  }

  lemma UnderOneMore(column: Column, table: Table, states: set<Cell>, s: Cell)
    requires s in states
    ensures UnderAny(column, table, states) == UnderAny(column, table, states - {s}) + Below(column, table, State, s)
    ensures UnderAny(column, table, states - {s}) !! Below(column, table, State, s)
  { }

  lemma {:induction false} SumOfSums(column: Column, table: Table, r: Column, states: set<Cell>)
    requires states <= r.Keys
    requires forall s :: s in states ==> r[s] == Some(Sum(column, Below(column, table, State, s)))
    ensures Sum(r, states) == Sum(column, UnderAny(column, table, states))
    decreases states
  {
    if states == {} {
      assert UnderAny(column, table, states) == {};
    } else {
      var s :| s in states;
      SumOfSums(column, table, r, states - {s});
      SumWithoutCell(r, states, s);
      UnderOneMore(column, table, states, s);
      SumUnion(column, UnderAny(column, table, states - {s}), Below(column, table, State, s));
    }
  }

  /** A state below a national row holds the sum of its municipalities, all of them below that row too. */
  lemma StateUnder(column: Column, table: Table, p: Cell, s: Cell)
    requires Staged(column, table) && p in Parents(column, table, National)
    requires s in StatesUnder(RolledUp(column, table), p)
    ensures {} < Below(column, table, State, s) <= Below(column, table, National, p)
    ensures RolledUp(column, table)[s] == NullSum(column, Below(column, table, State, s))
  {
    MembersAreBelow(column, table, s);
    ParentsAreSums(column, table, s);
    var m :| m in column && Selected(table, National, m) && Above(m, National) == p;
    forall c | c in Below(column, table, State, s) ensures c in Below(column, table, National, p) {
      assert Above(c, National) == Above(c, State).(code := "BR") == p;
    }
  }

  lemma StateOf(column: Column, table: Table, p: Cell, c: Cell)
    requires Staged(column, table) && c in Below(column, table, National, p)
    ensures Above(c, State) in StatesUnder(RolledUp(column, table), p)
    ensures c in Below(column, table, State, Above(c, State))
  {
    assert c in Below(column, table, State, Above(c, State));
    MembersAreBelow(column, table, Above(c, State));
    ParentsAreSums(column, table, Above(c, State));
  }

  lemma StatesCoverTheCountry(column: Column, table: Table, p: Cell)
    requires Staged(column, table) && p in Parents(column, table, National)
    ensures UnderAny(column, table, StatesUnder(RolledUp(column, table), p)) == Below(column, table, National, p)
  {
    var states := StatesUnder(RolledUp(column, table), p);
    forall c | c in Below(column, table, National, p) ensures c in UnderAny(column, table, states) {
      StateOf(column, table, p, c);
    }
    forall c | c in UnderAny(column, table, states) ensures c in Below(column, table, National, p) {
      StateUnder(column, table, p, Above(c, State));
      assert c in Below(column, table, State, Above(c, State));
    }
  }

  lemma CountryPresent(column: Column, table: Table, p: Cell)
    requires Staged(column, table) && p in Parents(column, table, National)
    requires var r := RolledUp(column, table); AllPresent(r, StatesUnder(r, p))
    ensures AllPresent(column, Below(column, table, National, p))
  {
    forall c | c in Below(column, table, National, p) ensures column[c].Some? {
      StateOf(column, table, p, c);
      StateUnder(column, table, p, Above(c, State));
    }
  }

  lemma StatesPresent(column: Column, table: Table, p: Cell)
    requires Staged(column, table) && p in Parents(column, table, National)
    ensures var r := RolledUp(column, table);
            AllPresent(r, StatesUnder(r, p)) <==> AllPresent(column, Below(column, table, National, p))
  {
    var r := RolledUp(column, table);
    if AllPresent(r, StatesUnder(r, p)) {
      CountryPresent(column, table, p);
    } else {
      var s :| s in StatesUnder(r, p) && r[s].None?;
      StateUnder(column, table, p, s);
    }
  }

  /** The country is also the sum of its states. */
  lemma CountryIsSumOfStates(column: Column, table: Table, p: Cell)
    requires Staged(column, table) && p in Parents(column, table, National)
    ensures var r := RolledUp(column, table); p in r && r[p] == NullSum(r, StatesUnder(r, p))
  {
    var r := RolledUp(column, table);
    var states := StatesUnder(r, p);
    MembersAreBelow(column, table, p);
    ParentsAreSums(column, table, p);
    HasParent(column, table, National, p);
    StatesPresent(column, table, p);
    if AllPresent(r, states) {
      StatesCoverTheCountry(column, table, p);
      forall s | s in states ensures r[s] == Some(Sum(column, Below(column, table, State, s))) {
        StateUnder(column, table, p, s);
      }
      SumOfSums(column, table, r, states);
    }
  }

  // ---------------------------------------------------------------------------------------------
  // The whole aggregation
  // ---------------------------------------------------------------------------------------------

  /** The field whose sum tells a contest that has taken place from one still to come. */
  const TOTAL_VOTES := 3

  ghost function Scheduled(column: Column): Column {
    map c | c in column && (c.election == 1 || c.election == 2) :: column[c]
  }

  /** Every count that is known adds up to zero, and some count is known. */
  ghost predicate EmptyContest(totalVotes: Column, contest: Cell) {
    contest in Parents(totalVotes, Totals, Contest) &&
    SqlSum(GroupTally(totalVotes, Totals, Contest, contest)) == Some(0)
  }

  ghost function Held(column: Column, totalVotes: Column): Column {
    map c | c in column && !EmptyContest(totalVotes, Above(c, Contest)) :: column[c]
  }

  /** The rows of a field that survive both deletions. */
  ghost function Kept(totals: Totals, f: nat): Column
    requires f < FIELDS
  {
    Held(Scheduled(totals[f]), Scheduled(totals[TOTAL_VOTES]))
  }

  lemma {:induction false} SumZero(column: Column, cells: set<Cell>)
    requires cells <= column.Keys && forall c :: c in cells ==> OrZero(column[c]) >= 0
    ensures Sum(column, cells) >= 0
    ensures Sum(column, cells) == 0 <==> forall c :: c in cells ==> OrZero(column[c]) == 0
    decreases cells
  {
    if cells != {} {
      var c :| c in cells;
      SumWithoutCell(column, cells, c);
      SumZero(column, cells - {c});
    }
  }

  ghost predicate SameContest(c: Cell, d: Cell) { c.office == d.office && c.election == d.election }

  ghost predicate SomeVotes(totalVotes: Column, c: Cell) {
    exists d :: d in totalVotes && SameContest(c, d) && totalVotes[d].Some? && totalVotes[d].value > 0
  }

  ghost predicate NoneKnown(totalVotes: Column, c: Cell) {
    forall d :: d in totalVotes && SameContest(c, d) ==> totalVotes[d].None?
  }

  lemma EmptyMeans(totalVotes: Column, c: Cell)
    requires forall d :: d in totalVotes ==> OrZero(totalVotes[d]) >= 0
    ensures EmptyContest(totalVotes, Above(c, Contest)) <==> !SomeVotes(totalVotes, c) && !NoneKnown(totalVotes, c)
  {
    var k := Above(c, Contest);
    var below := Below(totalVotes, Totals, Contest, k);
    assert forall d :: d in below <==> d in totalVotes && SameContest(c, d);
    HasParent(totalVotes, Totals, Contest, k);
    SumZero(totalVotes, below);
    var present := Present(totalVotes, below);
    assert |present| == 0 <==> present == {};
    if NoneKnown(totalVotes, c) {
      assert present == {};
    } else {
      var d :| d in totalVotes && SameContest(c, d) && totalVotes[d].Some?;
      assert d in present;
    }
  }

  /** What is left of the totals: first and second rounds in which somebody voted, or in which the
      number of votes is nowhere known. */
  lemma KeptRows(totals: Totals, f: nat, c: Cell)
    requires f < FIELDS && forall d :: d in totals[TOTAL_VOTES] ==> OrZero(totals[TOTAL_VOTES][d]) >= 0
    ensures c in Kept(totals, f) <==>
            && c in totals[f] && 1 <= c.election <= 2
            && (SomeVotes(totals[TOTAL_VOTES], c) || NoneKnown(totals[TOTAL_VOTES], c))
    ensures c in Kept(totals, f) ==> Kept(totals, f)[c] == totals[f][c]
  {
    var all, scheduled := totals[TOTAL_VOTES], Scheduled(totals[TOTAL_VOTES]);
    if 1 <= c.election <= 2 {
      EmptyMeans(scheduled, c);
      assert forall d :: SameContest(c, d) ==> (d in all <==> d in scheduled);
    }
  }

  method DeleteOtherRounds(stage: Stage)
    modifies stage`totals
    ensures forall f :: 0 <= f < FIELDS ==> stage.totals[f] == Scheduled(old(stage.totals)[f])
  {
    for f := 0 to FIELDS
      invariant forall g :: 0 <= g < f ==> stage.totals[g] == Scheduled(old(stage.totals)[g])
      invariant forall g :: f <= g < FIELDS ==> stage.totals[g] == old(stage.totals)[g]
    {
      var column := stage.totals[f];
      stage.totals := stage.totals[f := map c | c in column && (c.election == 1 || c.election == 2) :: column[c]];
    }
  }

  method EmptyContests(totalVotes: Column) returns (empty: set<Cell>)
    ensures forall k :: k in empty <==> EmptyContest(totalVotes, k)
  {
    var groups := GroupBy(totalVotes, Totals, Contest);
    empty := set k | k in groups && SqlSum(groups[k]) == Some(0);
  }

  method DeleteEmptyContests(stage: Stage)
    modifies stage`totals
    ensures forall f :: 0 <= f < FIELDS ==>
              stage.totals[f] == Held(old(stage.totals)[f], old(stage.totals)[TOTAL_VOTES])
  {
    var empty := EmptyContests(stage.totals[TOTAL_VOTES]);
    for f := 0 to FIELDS
      invariant forall g :: 0 <= g < f ==> stage.totals[g] == Held(old(stage.totals)[g], old(stage.totals)[TOTAL_VOTES])
      invariant forall g :: f <= g < FIELDS ==> stage.totals[g] == old(stage.totals)[g]
    {
      var column := stage.totals[f];
      stage.totals := stage.totals[f := map c | c in column && Above(c, Contest) !in empty :: column[c]];
    }
  }

  method RollUpTotals(stage: Stage)
    requires forall f :: 0 <= f < FIELDS ==> AllMunicipal(stage.totals[f])
    modifies stage`totals
    ensures forall f :: 0 <= f < FIELDS ==> stage.totals[f] == RolledUp(old(stage.totals)[f], Totals)
  {
    for f := 0 to FIELDS
      invariant forall g :: 0 <= g < f ==> stage.totals[g] == RolledUp(old(stage.totals)[g], Totals)
      invariant forall g :: f <= g < FIELDS ==> stage.totals[g] == old(stage.totals)[g]
    {
      var column := RollUp(stage.totals[f], Totals);
      stage.totals := stage.totals[f := column];
    }
  }

  /** The deletions and the roll-ups, in the order of the statements. */
  method Aggregate(stage: Stage)
    requires AllMunicipal(stage.votes) && AllMunicipal(stage.parties)
    requires forall f :: 0 <= f < FIELDS ==> AllMunicipal(stage.totals[f])
    modifies stage`votes, stage`parties, stage`totals
    ensures stage.votes == RolledUp(old(stage.votes), Votes)
    ensures stage.parties == RolledUp(old(stage.parties), Parties)
    ensures forall f :: 0 <= f < FIELDS ==> stage.totals[f] == RolledUp(Kept(old(stage.totals), f), Totals)
  {
    DeleteOtherRounds(stage);
    DeleteEmptyContests(stage);
    stage.votes := RollUp(stage.votes, Votes);
    stage.parties := RollUp(stage.parties, Parties);
    RollUpTotals(stage);
  }

  // ---------------------------------------------------------------------------------------------
  // From the rows
  // ---------------------------------------------------------------------------------------------

  /** What loading leaves in a table is what the roll-up asks for. */
  lemma {:induction false} LoadedIsStaged(entries: seq<Entry>, table: Table)
    requires forall i :: 0 <= i < |entries| ==> Municipal(entries[i].cell.code)
    requires !table.Totals? ==> forall i :: 0 <= i < |entries| ==> entries[i].value.Some?
    ensures Staged(Accumulated(map[], entries), table)
  {
    if entries != [] {
      LoadedIsStaged(entries[..|entries| - 1], table);
    }
  }
}
