/**
 Loading election rows into the staging tables. Rows are gathered in memory and written in batches;
 the tables must not depend on where the batches end.
 */
module ElectionStage {
  import opened Options

  /** A staged candidate: the last round won so far, and the description to show. */
  datatype Candidate = Candidate(office: string, scope: string, elected: Option<nat>, data: string)

  /** A key of the votes, parties and totals tables; totals have no item. */
  datatype Cell = Cell(office: string, election: nat, code: string, item: string)

  type Column = map<Cell, Option<int>>

  /** A candidate row that passed the filters. */
  datatype CandidateRow = CandidateRow(
    office: string, election: nat, code: string,
    id: string, scope: string, won: bool, data: string, votes: Option<int>)

  /** SQL addition: NULL absorbs. */
  function Plus(a: Option<int>, b: Option<int>): Option<int> {
    if a.None? || b.None? then None else Some(a.value + b.value)
  }

  function Max(a: nat, b: nat): nat { if a < b then b else a }

  // ---------------------------------------------------------------------------------------------
  // The two candidate merges
  // ---------------------------------------------------------------------------------------------

  function Won(row: CandidateRow): Option<nat> { if row.won then Some(row.election) else None }

  function Single(row: CandidateRow): Candidate { Candidate(row.office, row.scope, Won(row), row.data) }

  /** A Python number counts as true unless it is zero. */
  predicate Truthy(elected: Option<nat>) { elected.Some? && elected.value != 0 }

  /** The merge done in memory, as rows arrive. */
  function Remembered(previous: Option<Candidate>, row: CandidateRow): Candidate {
    var winner := previous.Some? && Truthy(previous.value.elected);
    var elected :=
      if winner then Some(Max(if row.won then row.election else 0, previous.value.elected.value)) else Won(row);
    Candidate(row.office, row.scope, elected, if winner && !row.won then previous.value.data else row.data)
  }

  /** The merge done by the database, on conflict. */
  function Upserted(stored: Option<Candidate>, incoming: Candidate): Candidate {
    if stored.None? then incoming else
    var held := stored.value;
    var elected :=
      if held.elected.Some? && incoming.elected.Some? then Some(Max(held.elected.value, incoming.elected.value))
      else if held.elected.Some? then held.elected
      else incoming.elected;
    held.(elected := elected,
         data := if incoming.elected.Some? || held.elected.None? then incoming.data else held.data)
  }

  /** The row keeps the candidate's office and scope, and does not follow, without a win, one in round zero. */
  predicate Fits(previous: Candidate, row: CandidateRow) {
    previous.office == row.office && previous.scope == row.scope && (previous.elected != Some(0) || row.won)
  }

  /** When the two merges agree. */
  lemma MergesAgree(previous: Candidate, row: CandidateRow)
    ensures Remembered(Some(previous), row) == Upserted(Some(previous), Single(row)) <==> Fits(previous, row)
  { }

  /** Merging twice is merging once with the merge of the two. */
  lemma UpsertAssociates(stored: Option<Candidate>, first: Candidate, second: Candidate)
    ensures Upserted(stored, Upserted(Some(first), second)) == Upserted(Some(Upserted(stored, first)), second)
  { }

  // ---------------------------------------------------------------------------------------------
  // Row by row
  // ---------------------------------------------------------------------------------------------

  datatype Tables = Tables(candidates: map<string, Candidate>, votes: Column)

  function Get<K, V>(table: map<K, V>, k: K): Option<V> { if k in table then Some(table[k]) else None }

  /** One row of the batch, added to the column. */
  function Added(column: Column, cell: Cell, value: Option<int>): Column {
    column[cell := if cell in column then Plus(column[cell], value) else value]
  }

  function VoteCell(row: CandidateRow): Cell { Cell(row.office, row.election, row.code, row.id) }

  predicate HasVotes(row: CandidateRow) { row.votes.Some? && row.votes.value > 0 }

  /** The tables after one row, written at once. */
  function AddRow(t: Tables, row: CandidateRow): Tables {
    Tables(t.candidates[row.id := Upserted(Get(t.candidates, row.id), Single(row))],
           if HasVotes(row) then Added(t.votes, VoteCell(row), row.votes) else t.votes)
  }

  function AddRows(t: Tables, rows: seq<CandidateRow>): Tables {
    if rows == [] then t else AddRow(AddRows(t, rows[..|rows| - 1]), rows[|rows| - 1])
  }

  // ---------------------------------------------------------------------------------------------
  // In batches
  // ---------------------------------------------------------------------------------------------

  datatype Entry = Entry(cell: Cell, value: Option<int>)

  function Accumulated(column: Column, batch: seq<Entry>): Column {
    if batch == [] then column else
    var last := batch[|batch| - 1];
    Added(Accumulated(column, batch[..|batch| - 1]), last.cell, last.value)
  }

  ghost function Saved(stored: map<string, Candidate>, remembered: map<string, Candidate>): map<string, Candidate> {
    map id | id in stored.Keys + remembered.Keys ::
      if id in remembered then Upserted(Get(stored, id), remembered[id]) else stored[id]
  }

  /** Candidate ids keep their office and scope, and rounds count from one. */
  ghost predicate Regular(rows: seq<CandidateRow>) {
    && (forall i :: 0 <= i < |rows| ==> rows[i].election >= 1)
    && (forall i, j :: 0 <= i < j < |rows| && rows[i].id == rows[j].id ==>
          rows[i].office == rows[j].office && rows[i].scope == rows[j].scope)
  }

  /** A remembered candidate has the office and scope of its rows, and no round-zero win. */
  ghost predicate Source(rows: seq<CandidateRow>, n: nat, id: string, c: Candidate)
    requires n <= |rows|
  {
    && c.elected != Some(0)
    && exists i :: 0 <= i < n && rows[i].id == id && rows[i].office == c.office && rows[i].scope == c.scope
  }

  /** What is in memory comes from the rows read so far. */
  ghost predicate FromRows(remembered: map<string, Candidate>, rows: seq<CandidateRow>, n: nat)
    requires n <= |rows|
  {
    forall id :: id in remembered ==> Source(rows, n, id, remembered[id])
  }

  /** A party row: nominal and legend votes, either of which may be missing. */
  datatype PartyRow = PartyRow(
    office: string, election: nat, code: string, party: string, nominal: Option<int>, legend: Option<int>)

  predicate HasPartyVotes(row: PartyRow) {
    row.nominal.Some? && row.legend.Some? && row.nominal.value + row.legend.value > 0
  }

  function PartyEntries(rows: seq<PartyRow>): seq<Entry> {
    if rows == [] then [] else
    var before, row := PartyEntries(rows[..|rows| - 1]), rows[|rows| - 1];
    if HasPartyVotes(row)
    then before + [Entry(Cell(row.office, row.election, row.code, row.party), Plus(row.nominal, row.legend))]
    else before
  }

  /** A turnout row: seven counts, any of which may be missing. */
  datatype DetailRow = DetailRow(office: string, election: nat, code: string, counts: seq<Option<int>>)

  const FIELDS := 7

  type Totals = t: seq<Column> | |t| == FIELDS witness seq(FIELDS, _ => map[])

  ghost predicate Complete(rows: seq<DetailRow>) {
    forall i :: 0 <= i < |rows| ==> |rows[i].counts| == FIELDS
  }

  function FieldEntries(rows: seq<DetailRow>, f: nat): (entries: seq<Entry>)
    requires f < FIELDS && forall i :: 0 <= i < |rows| ==> |rows[i].counts| == FIELDS
    ensures |entries| == |rows|
    ensures forall i :: 0 <= i < |rows| ==>
              entries[i] == Entry(Cell(rows[i].office, rows[i].election, rows[i].code, ""), rows[i].counts[f])
  {
    seq(|rows|, i requires 0 <= i < |rows| =>
      Entry(Cell(rows[i].office, rows[i].election, rows[i].code, ""), rows[i].counts[f]))
  }

  /** The totals after these rows, field by field. */
  ghost function AddTotals(totals: Totals, rows: seq<DetailRow>): Totals
    requires Complete(rows)
  {
    seq(FIELDS, f requires 0 <= f < FIELDS => Accumulated(totals[f], FieldEntries(rows, f)))
  }

  lemma {:induction false} AccumulatedTwice(column: Column, a: seq<Entry>, b: seq<Entry>)
    ensures Accumulated(Accumulated(column, a), b) == Accumulated(column, a + b)
  {
    if b == [] {
      assert a + b == a;
    } else {
      var n := |b| - 1;
      AccumulatedTwice(column, a, b[..n]);
      assert (a + b)[..|a| + n] == a + b[..n];
    }
  }

  class Stage {
    var candidates: map<string, Candidate>
    var votes: Column
    var parties: Column
    var totals: Totals

    ghost function Value(): Tables
      reads this
    {
      Tables(candidates, votes)
    }

    method SaveCandidates(remembered: map<string, Candidate>)
      modifies this`candidates
      ensures candidates == Saved(old(candidates), remembered)
    {
      var left := remembered.Keys;
      ghost var done: map<string, Candidate> := map[];
      while left != {}
        invariant left <= remembered.Keys
        invariant done == map id | id in remembered && id !in left :: remembered[id]
        invariant candidates == Saved(old(candidates), done)
        decreases |left|
      {
        var id :| id in left;
        candidates := candidates[id := Upserted(Get(candidates, id), remembered[id])];
        left := left - {id};
        done := done[id := remembered[id]];
      }
      assert done == remembered;
    }

    method InsertVotes(batch: seq<Entry>)
      modifies this`votes
      ensures votes == Accumulated(old(votes), batch)
    {
      for i := 0 to |batch|
        invariant votes == Accumulated(old(votes), batch[..i])
      {
        assert batch[..i + 1][..i] == batch[..i];
        votes := Added(votes, batch[i].cell, batch[i].value);
      }
      assert batch[..|batch|] == batch;
    }

    method InsertParties(batch: seq<Entry>)
      modifies this`parties
      ensures parties == Accumulated(old(parties), batch)
    {
      for i := 0 to |batch|
        invariant parties == Accumulated(old(parties), batch[..i])
      {
        assert batch[..i + 1][..i] == batch[..i];
        parties := Added(parties, batch[i].cell, batch[i].value);
      }
      assert batch[..|batch|] == batch;
    }

    /** Party rows, in batches of any size. */
    method LoadPartyRows(rows: seq<PartyRow>, limit: nat)
      modifies this`parties
      ensures parties == Accumulated(old(parties), PartyEntries(rows)) && PartiesFrom(old(parties), rows, parties)
    {
      PartiesAddUp(parties, rows);
      var batch: seq<Entry> := [];
      ghost var written: seq<Entry> := [];
      for n := 0 to |rows|
        invariant parties == Accumulated(old(parties), written)
        invariant written + batch == PartyEntries(rows[..n])
      {
        var row := rows[n];
        assert rows[..n + 1][..n] == rows[..n];
        if HasPartyVotes(row) {
          batch := batch + [Entry(Cell(row.office, row.election, row.code, row.party), Plus(row.nominal, row.legend))];
        }
        if |batch| >= limit {
          AccumulatedTwice(old(parties), written, batch);
          InsertParties(batch);
          written, batch := written + batch, [];
        }
      }
      assert rows[..|rows|] == rows;
      AccumulatedTwice(old(parties), written, batch);
      InsertParties(batch);
    }

    method InsertTotals(batch: seq<DetailRow>)
      requires Complete(batch)
      modifies this`totals
      ensures totals == AddTotals(old(totals), batch)
    {
      for f := 0 to FIELDS
        invariant forall g :: 0 <= g < f ==> totals[g] == Accumulated(old(totals)[g], FieldEntries(batch, g))
        invariant forall g :: f <= g < FIELDS ==> totals[g] == old(totals)[g]
      {
        var column := totals[f];
        var entries := FieldEntries(batch, f);
        for i := 0 to |entries|
          invariant column == Accumulated(old(totals)[f], entries[..i])
        {
          assert entries[..i + 1][..i] == entries[..i];
          column := Added(column, entries[i].cell, entries[i].value);
        }
        assert entries[..|entries|] == entries;
        totals := totals[f := column];
      }
    }

    /** Turnout rows, in batches of any size. */
    method LoadDetailRows(rows: seq<DetailRow>, limit: nat)
      requires Complete(rows)
      modifies this`totals
      ensures totals == AddTotals(old(totals), rows)
      ensures forall f :: 0 <= f < FIELDS ==> CountsFrom(old(totals)[f], rows, f, totals[f])
    {
      forall f | 0 <= f < FIELDS { CountsAddUp(totals[f], rows, f); }
      var batch: seq<DetailRow> := [];
      ghost var start := totals;
      ghost var written: seq<DetailRow> := [];
      for n := 0 to |rows|
        invariant Complete(written) && Complete(batch)
        invariant totals == AddTotals(start, written)
        invariant written + batch == rows[..n]
      {
        batch := batch + [rows[n]];
        assert written + batch == rows[..n + 1];
        if |batch| >= limit {
          TotalsTwice(start, written, batch);
          InsertTotals(batch);
          written, batch := written + batch, [];
        }
      }
      assert rows[..|rows|] == rows;
      TotalsTwice(start, written, batch);
      InsertTotals(batch);
    }

    /** Candidate rows, in batches of any size. For regular rows the tables end up as if every row had
        been written at once, whatever the limit. */
    method LoadCandidateRows(rows: seq<CandidateRow>, limit: nat)
      modifies this`candidates, this`votes
      ensures Value() == Loaded(old(Value()), rows, limit)
      ensures Regular(rows) ==> Value() == AddRows(old(Value()), rows)
      ensures VotesFrom(old(votes), rows, votes)
    {
      VotesAddUp(Value(), rows);
      LoadedVotes(Value(), rows, limit);
      var batch: seq<Entry> := [];
      var remembered: map<string, Candidate> := map[];
      for n := 0 to |rows|
        invariant Loading(Value(), batch, remembered) == ReadRows(old(Value()), rows[..n], limit)
      {
        var row := rows[n];
        assert rows[..n + 1][..n] == rows[..n];
        remembered := remembered[row.id := Remembered(Get(remembered, row.id), row)];
        if HasVotes(row) {
          batch := batch + [Entry(VoteCell(row), row.votes)];
        }
        if |batch| >= limit {
          InsertVotes(batch);
          SaveCandidates(remembered);
          batch, remembered := [], map[];
        }
      }
      assert rows[..|rows|] == rows;
      InsertVotes(batch);
      SaveCandidates(remembered);
      if Regular(rows) { LimitIsIrrelevant(old(Value()), rows, limit); }
    }
  }

  lemma TotalsTwice(totals: Totals, a: seq<DetailRow>, b: seq<DetailRow>)
    requires Complete(a) && Complete(b)
    ensures Complete(a + b) && AddTotals(AddTotals(totals, a), b) == AddTotals(totals, a + b)
  {
    forall f: nat | f < FIELDS
      ensures Accumulated(AddTotals(totals, a)[f], FieldEntries(b, f)) == Accumulated(totals[f], FieldEntries(a + b, f))
    {
      AccumulatedTwice(totals[f], FieldEntries(a, f), FieldEntries(b, f));
      assert FieldEntries(a + b, f) == FieldEntries(a, f) + FieldEntries(b, f);
    }
  }

  /** The tables with everything pending written. */
  ghost function Flushed(t: Tables, batch: seq<Entry>, remembered: map<string, Candidate>): Tables {
    Tables(Saved(t.candidates, remembered), Accumulated(t.votes, batch))
  }

  lemma NothingPending(t: Tables)
    ensures Flushed(t, [], map[]) == t
  {
    assert Saved(t.candidates, map[]) == t.candidates;
  }

  /** The tables, with what is pending in memory. */
  datatype Loading = Loading(tables: Tables, batch: seq<Entry>, remembered: map<string, Candidate>)

  /** A row taken into memory, and everything written when the batch is full. */
  ghost function ReadRow(l: Loading, row: CandidateRow, limit: nat): Loading {
    var remembered := l.remembered[row.id := Remembered(Get(l.remembered, row.id), row)];
    var batch := if HasVotes(row) then l.batch + [Entry(VoteCell(row), row.votes)] else l.batch;
    if |batch| >= limit then Loading(Flushed(l.tables, batch, remembered), [], map[])
    else Loading(l.tables, batch, remembered)
  }

  ghost function ReadRows(t: Tables, rows: seq<CandidateRow>, limit: nat): Loading {
    if rows == [] then Loading(t, [], map[])
    else ReadRow(ReadRows(t, rows[..|rows| - 1], limit), rows[|rows| - 1], limit)
  }

  ghost function Loaded(t: Tables, rows: seq<CandidateRow>, limit: nat): Tables {
    var l := ReadRows(t, rows, limit);
    Flushed(l.tables, l.batch, l.remembered)
  }

  /** Taking a row that fits into memory is the same as writing it after everything pending. */
  lemma RowRemembered(t: Tables, batch: seq<Entry>, remembered: map<string, Candidate>, row: CandidateRow)
    requires row.id in remembered ==> Fits(remembered[row.id], row)
    ensures var more := remembered[row.id := Remembered(Get(remembered, row.id), row)];
            var longer := if HasVotes(row) then batch + [Entry(VoteCell(row), row.votes)] else batch;
            Flushed(t, longer, more) == AddRow(Flushed(t, batch, remembered), row)
  {
    CandidateRemembered(t.candidates, remembered, row);
    if HasVotes(row) {
      var longer := batch + [Entry(VoteCell(row), row.votes)];
      assert longer[..|batch|] == batch;
    }
  }

  /** For one candidate: remembering and then saving is saving and then upserting the row. */
  lemma PendingMerges(stored: Option<Candidate>, pending: Option<Candidate>, row: CandidateRow)
    requires pending.Some? ==> Fits(pending.value, row)
    ensures var flushed := if pending.Some? then Some(Upserted(stored, pending.value)) else stored;
            Upserted(stored, Remembered(pending, row)) == Upserted(flushed, Single(row))
  {
    if pending.Some? {
      MergesAgree(pending.value, row);
      UpsertAssociates(stored, pending.value, Single(row));
    }
  }

  lemma CandidateRemembered(stored: map<string, Candidate>, remembered: map<string, Candidate>, row: CandidateRow)
    requires row.id in remembered ==> Fits(remembered[row.id], row)
    ensures var more := remembered[row.id := Remembered(Get(remembered, row.id), row)];
            var saved := Saved(stored, remembered);
            Saved(stored, more) == saved[row.id := Upserted(Get(saved, row.id), Single(row))]
  {
    PendingMerges(Get(stored, row.id), Get(remembered, row.id), row);
    assert Get(Saved(stored, remembered), row.id) ==
      if row.id in remembered then Some(Upserted(Get(stored, row.id), remembered[row.id])) else Get(stored, row.id);
    SavedUpdate(stored, remembered, row.id, Remembered(Get(remembered, row.id), row));
  }

  /** Among regular rows, each fits what is remembered of its candidate. */
  lemma RegularFits(remembered: map<string, Candidate>, rows: seq<CandidateRow>, n: nat)
    requires n < |rows| && Regular(rows) && FromRows(remembered, rows, n)
    ensures rows[n].id in remembered ==> Fits(remembered[rows[n].id], rows[n])
    ensures FromRows(remembered[rows[n].id := Remembered(Get(remembered, rows[n].id), rows[n])], rows, n + 1)
  {
    var row := rows[n];
    assert rows[n].id == row.id;
    if row.id in remembered { assert Source(rows, n, row.id, remembered[row.id]); }
    forall id | id in remembered ensures Source(rows, n + 1, id, remembered[id]) {
      assert Source(rows, n, id, remembered[id]);
    }
    assert Source(rows, n + 1, row.id, Remembered(Get(remembered, row.id), row));
  }

  lemma {:induction false} RegularRows(t: Tables, rows: seq<CandidateRow>, n: nat, limit: nat)
    requires Regular(rows) && n <= |rows|
    ensures var l := ReadRows(t, rows[..n], limit);
            FromRows(l.remembered, rows, n) && Flushed(l.tables, l.batch, l.remembered) == AddRows(t, rows[..n])
  {
    if n == 0 {
      NothingPending(t);
    } else {
      RegularRows(t, rows, n - 1, limit);
      assert rows[..n][..n - 1] == rows[..n - 1];
      var l, row := ReadRows(t, rows[..n - 1], limit), rows[n - 1];
      RegularFits(l.remembered, rows, n - 1);
      RowRemembered(l.tables, l.batch, l.remembered, row);
      NothingPending(ReadRows(t, rows[..n], limit).tables);
    }
  }

  /** For regular rows the batch limit makes no difference. */
  lemma LimitIsIrrelevant(t: Tables, rows: seq<CandidateRow>, limit: nat)
    requires Regular(rows)
    ensures Loaded(t, rows, limit) == AddRows(t, rows)
  {
    assert rows[..|rows|] == rows;
    RegularRows(t, rows, |rows|, limit);
  }

  lemma {:induction false} ReadVotes(t: Tables, rows: seq<CandidateRow>, limit: nat)
    ensures var l := ReadRows(t, rows, limit); Accumulated(l.tables.votes, l.batch) == AddRows(t, rows).votes
  {
    if rows != [] {
      var front, row := rows[..|rows| - 1], rows[|rows| - 1];
      ReadVotes(t, front, limit);
      if HasVotes(row) {
        var l := ReadRows(t, front, limit);
        assert (l.batch + [Entry(VoteCell(row), row.votes)])[..|l.batch|] == l.batch;
      }
    }
  }

  /** It never makes a difference to the votes. */
  lemma LoadedVotes(t: Tables, rows: seq<CandidateRow>, limit: nat)
    ensures Loaded(t, rows, limit).votes == AddRows(t, rows).votes
  {
    ReadVotes(t, rows, limit);
  }

  lemma ReadTwo(t: Tables, a: CandidateRow, b: CandidateRow, limit: nat)
    ensures ReadRows(t, [a, b], limit) == ReadRow(ReadRow(Loading(t, [], map[]), a, limit), b, limit)
  {
    assert [a, b][..1] == [a] && [a][..0] == [];
    assert ReadRows(t, [a], limit) == ReadRow(ReadRows(t, [], limit), a, limit);
  }

  lemma FlushedCandidate(t: Tables, batch: seq<Entry>, remembered: map<string, Candidate>, id: string)
    ensures Get(Flushed(t, batch, remembered).candidates, id) ==
            if id in remembered then Some(Upserted(Get(t.candidates, id), remembered[id])) else Get(t.candidates, id)
  { }

  /** What two rows load to when each is a batch of its own. */
  lemma LoadedApart(t: Tables, a: CandidateRow, b: CandidateRow)
    requires HasVotes(a) && HasVotes(b) && a.id == b.id && a.id !in t.candidates
    ensures Get(Loaded(t, [a, b], 1).candidates, a.id) == Some(Upserted(Some(Single(a)), Single(b)))
  {
    ReadTwo(t, a, b, 1);
    var one := ReadRow(Loading(t, [], map[]), a, 1);
    assert Get(one.tables.candidates, a.id) == Some(Single(a));
    NothingPending(ReadRow(one, b, 1).tables);
  }

  /** A row that does not fill the batch is only remembered. */
  lemma RowWaits(l: Loading, row: CandidateRow, limit: nat)
    requires |l.batch| + 1 < limit
    ensures var next := ReadRow(l, row, limit);
            && next.tables == l.tables && |next.batch| <= |l.batch| + 1
            && Get(next.remembered, row.id) == Some(Remembered(Get(l.remembered, row.id), row))
  { }

  /** And when they are one batch. */
  lemma LoadedTogether(t: Tables, a: CandidateRow, b: CandidateRow)
    requires a.id == b.id && a.id !in t.candidates
    ensures Get(Loaded(t, [a, b], 3).candidates, a.id) == Some(Remembered(Some(Single(a)), b))
  {
    ReadTwo(t, a, b, 3);
    var none := Loading(t, [], map[]);
    RowWaits(none, a, 3);
    var one := ReadRow(none, a, 3);
    RowWaits(one, b, 3);
    var both := ReadRow(one, b, 3);
    FlushedCandidate(t, both.batch, both.remembered, a.id);
  }

  /** It does for a candidate that changes office, and for one that loses after a win in round zero. */
  lemma LimitMatters()
    ensures var a := CandidateRow("governor", 1, "3550308", "7", "35", false, "a", Some(5));
            var rows := [a, a.(office := "senator")];
            Loaded(Tables(map[], map[]), rows, 1) != Loaded(Tables(map[], map[]), rows, 3)
    ensures var a := CandidateRow("governor", 0, "3550308", "7", "35", true, "a", Some(5));
            var rows := [a, a.(won := false)];
            Loaded(Tables(map[], map[]), rows, 1) != Loaded(Tables(map[], map[]), rows, 3)
  {
    var t := Tables(map[], map[]);
    var a := CandidateRow("governor", 1, "3550308", "7", "35", false, "a", Some(5));
    LoadedApart(t, a, a.(office := "senator"));
    LoadedTogether(t, a, a.(office := "senator"));
    var zero := a.(election := 0, won := true);
    LoadedApart(t, zero, zero.(won := false));
    LoadedTogether(t, zero, zero.(won := false));
  }

  lemma SavedUpdate(stored: map<string, Candidate>, remembered: map<string, Candidate>, id: string, c: Candidate)
    ensures Saved(stored, remembered[id := c]) == Saved(stored, remembered)[id := Upserted(Get(stored, id), c)]
  { }

  // ---------------------------------------------------------------------------------------------
  // What the tables hold
  // ---------------------------------------------------------------------------------------------

  /** The last round the candidate won, among the first rows. */
  function LastWin(rows: seq<CandidateRow>, id: string): Option<nat> {
    if rows == [] then None else
    var row, before := rows[|rows| - 1], LastWin(rows[..|rows| - 1], id);
    if row.id != id || !row.won then before
    else if before.None? then Some(row.election)
    else Some(Max(before.value, row.election))
  }

  /** The description to show: that of the last row that says elected, else that of the last row. */
  function Shown(rows: seq<CandidateRow>, id: string): Option<string> {
    if rows == [] then None else
    var front, row := rows[..|rows| - 1], rows[|rows| - 1];
    if row.id == id && (row.won || LastWin(front, id).None?) then Some(row.data) else Shown(front, id)
  }

  /** Loaded into an empty table, a candidate is elected in the greatest round it won, and shows the
      last row that says elected, or else its last row. */
  lemma {:induction false} LoadedCandidates(rows: seq<CandidateRow>, id: string)
    ensures var c := Get(AddRows(Tables(map[], map[]), rows).candidates, id);
            && (c.Some? <==> exists i :: 0 <= i < |rows| && rows[i].id == id)
            && (c.Some? ==> c.value.elected == LastWin(rows, id) && Some(c.value.data) == Shown(rows, id))
            && (c.None? ==> LastWin(rows, id) == None)
  {
    if rows != [] {
      var front := rows[..|rows| - 1];
      LoadedCandidates(front, id);
      assert rows == front + [rows[|rows| - 1]];
      if exists i :: 0 <= i < |front| && front[i].id == id {
        var i :| 0 <= i < |front| && front[i].id == id;
        assert rows[i].id == id;
      }
    }
  }

  /** The first row about this candidate. */
  ghost predicate Introduces(rows: seq<CandidateRow>, i: nat, id: string) {
    i < |rows| && rows[i].id == id && forall j :: 0 <= j < i ==> rows[j].id != id
  }

  /** A candidate keeps the office and scope of the row that introduced it. */
  lemma {:induction false} CandidateIntroduced(rows: seq<CandidateRow>, i: nat, id: string)
    requires Introduces(rows, i, id)
    ensures var c := Get(AddRows(Tables(map[], map[]), rows).candidates, id);
            c.Some? && c.value.office == rows[i].office && c.value.scope == rows[i].scope
  {
    var front := rows[..|rows| - 1];
    LoadedCandidates(front, id);
    if i < |front| {
      CandidateIntroduced(front, i, id);
    }
  }

  /** NULL-absorbing sum of the values given for a cell. */
  function SumFor(batch: seq<Entry>, cell: Cell): Option<int> {
    if batch == [] then Some(0) else
    var last, before := batch[|batch| - 1], SumFor(batch[..|batch| - 1], cell);
    if last.cell == cell then Plus(before, last.value) else before
  }

  ghost predicate Mentions(batch: seq<Entry>, cell: Cell) { exists i :: 0 <= i < |batch| && batch[i].cell == cell }

  /** Upserting a batch into a column adds, cell by cell, the sum of the batch: NULL as soon as any
      addend is. */
  lemma {:induction false} AccumulatedAreSums(column: Column, batch: seq<Entry>, cell: Cell)
    ensures cell in Accumulated(column, batch) <==> cell in column || Mentions(batch, cell)
    ensures cell in Accumulated(column, batch) ==>
              Accumulated(column, batch)[cell] ==
                  Plus(if cell in column then column[cell] else Some(0), SumFor(batch, cell))
  {
    if batch != [] {
      var n := |batch| - 1;
      AccumulatedAreSums(column, batch[..n], cell);
      MentionsSnoc(batch[..n], batch[n], cell);
      assert batch == batch[..n] + [batch[n]];
      if !Mentions(batch[..n], cell) { NotMentioned(batch[..n], cell); }
    }
  }

  lemma MentionsSnoc(front: seq<Entry>, last: Entry, cell: Cell)
    ensures Mentions(front + [last], cell) <==> Mentions(front, cell) || last.cell == cell
  {
    var batch := front + [last];
    if Mentions(front, cell) {
      var i :| 0 <= i < |front| && front[i].cell == cell;
      assert batch[i].cell == cell;
    }
    assert batch[|front|] == last;
  }

  lemma {:induction false} NotMentioned(batch: seq<Entry>, cell: Cell)
    requires !Mentions(batch, cell)
    ensures SumFor(batch, cell) == Some(0)
  {
    if batch != [] {
      var n := |batch| - 1;
      assert batch == batch[..n] + [batch[n]];
      MentionsSnoc(batch[..n], batch[n], cell);
      NotMentioned(batch[..n], cell);
    }
  }

  lemma {:induction false} SumWithout(batch: seq<Entry>, i: nat, cell: Cell)
    requires i < |batch|
    ensures SumFor(batch, cell) ==
              Plus(SumFor(batch[..i] + batch[i + 1..], cell), if batch[i].cell == cell then batch[i].value else Some(0))
  {
    var n := |batch| - 1;
    var rest := batch[..i] + batch[i + 1..];
    if i == n {
      assert rest == batch[..n];
    } else {
      SumWithout(batch[..n], i, cell);
      assert rest[..n - 1] == batch[..n][..i] + batch[..n][i + 1..];
      assert rest[n - 1] == batch[n];
    }
  }

  lemma MultisetWithout<X>(b: seq<X>, i: nat)
    requires i < |b|
    ensures multiset(b) == multiset(b[..i] + b[i + 1..]) + multiset{b[i]}
  {
    assert b == b[..i] + [b[i]] + b[i + 1..];
  }

  lemma SameRest<X>(a: seq<X>, b: seq<X>, i: nat, j: nat)
    requires multiset(a) == multiset(b) && i < |a| && j < |b| && a[i] == b[j]
    ensures multiset(a[..i] + a[i + 1..]) == multiset(b[..j] + b[j + 1..])
  {
    MultisetWithout(a, i);
    MultisetWithout(b, j);
    assert multiset(a[..i] + a[i + 1..]) == multiset(a) - multiset{a[i]};
    assert multiset(b[..j] + b[j + 1..]) == multiset(b) - multiset{a[i]};
  }

  /** The order of the rows does not matter to the sums. */
  lemma {:induction false} SumIgnoresOrder(a: seq<Entry>, b: seq<Entry>, cell: Cell)
    requires multiset(a) == multiset(b)
    ensures SumFor(a, cell) == SumFor(b, cell)
  {
    if a == [] {
      assert |multiset(b)| == 0;
    } else {
      var n := |a| - 1;
      var x := a[n];
      assert x in multiset(a);
      assert x in multiset(b);
      var i :| 0 <= i < |b| && b[i] == x;
      SameRest(a, b, n, i);
      assert a[..n] + a[n + 1..] == a[..n];
      SumWithout(b, i, cell);
      SumIgnoresOrder(a[..n], b[..i] + b[i + 1..], cell);
    }
  }

  lemma MentionsIgnoresOrder(a: seq<Entry>, b: seq<Entry>, cell: Cell)
    requires multiset(a) == multiset(b) && Mentions(a, cell)
    ensures Mentions(b, cell)
  {
    var i :| 0 <= i < |a| && a[i].cell == cell;
    assert a[i] in multiset(a);
    assert a[i] in multiset(b);
    var j :| 0 <= j < |b| && b[j] == a[i];
    assert b[j].cell == cell;
  }

  /** Nor to the column that they leave. */
  lemma LoadingIgnoresOrder(column: Column, a: seq<Entry>, b: seq<Entry>)
    requires multiset(a) == multiset(b)
    ensures Accumulated(column, a) == Accumulated(column, b)
  {
    forall cell
      ensures cell in Accumulated(column, a) <==> cell in Accumulated(column, b)
      ensures cell in Accumulated(column, a) ==> Accumulated(column, a)[cell] == Accumulated(column, b)[cell]
    {
      AccumulatedAreSums(column, a, cell);
      AccumulatedAreSums(column, b, cell);
      SumIgnoresOrder(a, b, cell);
      if Mentions(a, cell) { MentionsIgnoresOrder(a, b, cell); }
      if Mentions(b, cell) { MentionsIgnoresOrder(b, a, cell); }
    }
  }

  // ---------------------------------------------------------------------------------------------
  // What the rows add up to
  // ---------------------------------------------------------------------------------------------

  /** The row gives this party votes in this contest and place: both counts are known, and not zero together. */
  ghost predicate PartyRowFor(row: PartyRow, cell: Cell) {
    && row.office == cell.office && row.election == cell.election && row.code == cell.code && row.party == cell.item
    && row.nominal.Some? && row.legend.Some? && row.nominal.value + row.legend.value > 0
  }

  /** Nominal and legend votes, over the rows for the cell. */
  ghost function PartyVotes(rows: seq<PartyRow>, cell: Cell): int {
    if rows == [] then 0 else
    var before, row := PartyVotes(rows[..|rows| - 1], cell), rows[|rows| - 1];
    if PartyRowFor(row, cell) then before + row.nominal.value + row.legend.value else before
  }

  ghost predicate CandidateRowFor(row: CandidateRow, cell: Cell) {
    && row.office == cell.office && row.election == cell.election && row.code == cell.code && row.id == cell.item
    && row.votes.Some? && row.votes.value > 0
  }

  ghost function CandidateVotes(rows: seq<CandidateRow>, cell: Cell): int {
    if rows == [] then 0 else
    var before, row := CandidateVotes(rows[..|rows| - 1], cell), rows[|rows| - 1];
    if CandidateRowFor(row, cell) then before + row.votes.value else before
  }

  ghost predicate DetailRowFor(row: DetailRow, cell: Cell) {
    row.office == cell.office && row.election == cell.election && row.code == cell.code && cell.item == ""
  }

  /** The known counts of a field, over the rows for the cell. */
  ghost function KnownCounts(rows: seq<DetailRow>, cell: Cell, f: nat): int
    requires Complete(rows) && f < FIELDS
  {
    if rows == [] then 0 else
    var before, row := KnownCounts(rows[..|rows| - 1], cell, f), rows[|rows| - 1];
    if DetailRowFor(row, cell) && row.counts[f].Some? then before + row.counts[f].value else before
  }

  /** What is in a cell once `votes` more are added: nothing comes of an unknown value. */
  function More(column: Column, cell: Cell, votes: int): Option<int> {
    if cell !in column then Some(votes) else
    match column[cell] case None => None case Some(value) => Some(value + votes)
  }

  /** `after` holds what `before` does and the votes of the rows, if there are `some`, for this cell. */
  ghost predicate CellFrom(before: Column, some: bool, votes: int, after: Column, cell: Cell) {
    && (cell in after <==> cell in before || some)
    && (cell in after ==> after[cell] == More(before, cell, votes))
  }

  ghost predicate SomeParty(rows: seq<PartyRow>, cell: Cell) {
    exists i :: 0 <= i < |rows| && PartyRowFor(rows[i], cell)
  }

  ghost predicate SomeCandidate(rows: seq<CandidateRow>, cell: Cell) {
    exists i :: 0 <= i < |rows| && CandidateRowFor(rows[i], cell)
  }

  ghost predicate PartiesFrom(before: Column, rows: seq<PartyRow>, after: Column) {
    forall cell :: CellFrom(before, SomeParty(rows, cell), PartyVotes(rows, cell), after, cell)
  }

  ghost predicate VotesFrom(before: Column, rows: seq<CandidateRow>, after: Column) {
    forall cell :: CellFrom(before, SomeCandidate(rows, cell), CandidateVotes(rows, cell), after, cell)
  }

  ghost predicate SomeDetail(rows: seq<DetailRow>, cell: Cell) {
    exists i :: 0 <= i < |rows| && DetailRowFor(rows[i], cell)
  }

  /** Some row for the cell does not know the field. */
  ghost predicate SomeUnknown(rows: seq<DetailRow>, cell: Cell, f: nat)
    requires Complete(rows) && f < FIELDS
  {
    exists i :: 0 <= i < |rows| && DetailRowFor(rows[i], cell) && rows[i].counts[f].None?
  }

  /** One unknown count makes the field unknown. */
  ghost predicate CountFrom(before: Column, rows: seq<DetailRow>, f: nat, after: Column, cell: Cell)
    requires Complete(rows) && f < FIELDS
  {
    && (cell in after <==> cell in before || SomeDetail(rows, cell))
    && (cell in after ==>
          after[cell] == if SomeUnknown(rows, cell, f) then None else More(before, cell, KnownCounts(rows, cell, f)))
  }

  ghost predicate CountsFrom(before: Column, rows: seq<DetailRow>, f: nat, after: Column)
    requires Complete(rows) && f < FIELDS
  {
    forall cell :: CountFrom(before, rows, f, after, cell)
  }

  lemma CellStep(before: Column, some: bool, votes: int, column: Column, cell: Cell, at: Cell, value: int)
    requires CellFrom(before, some, votes, column, cell) && (!some ==> votes == 0)
    ensures CellFrom(before, some || at == cell, if at == cell then votes + value else votes,
              Added(column, at, Some(value)), cell)
  { }

  lemma PartySnoc(front: seq<PartyRow>, row: PartyRow, cell: Cell)
    ensures SomeParty(front + [row], cell) <==> SomeParty(front, cell) || PartyRowFor(row, cell)
    ensures PartyVotes(front + [row], cell) ==
              PartyVotes(front, cell) + if PartyRowFor(row, cell) then row.nominal.value + row.legend.value else 0
  {
    var rows := front + [row];
    assert rows[..|front|] == front && rows[|front|] == row;
    forall i | 0 <= i < |front| ensures rows[i] == front[i] { }
  }

  lemma {:induction false} PartyAddsUp(before: Column, rows: seq<PartyRow>, cell: Cell)
    ensures CellFrom(before, SomeParty(rows, cell), PartyVotes(rows, cell),
                     Accumulated(before, PartyEntries(rows)), cell)
    ensures !SomeParty(rows, cell) ==> PartyVotes(rows, cell) == 0
  {
    if rows != [] {
      var n := |rows| - 1;
      var front, row := rows[..n], rows[n];
      PartyAddsUp(before, front, cell);
      assert rows == front + [row];
      PartySnoc(front, row, cell);
      if HasPartyVotes(row) {
        var entries, last := PartyEntries(front), PartyEntries(rows)[|PartyEntries(front)|];
        assert PartyEntries(rows) == entries + [last] && (entries + [last])[..|entries|] == entries;
        CellStep(before, SomeParty(front, cell), PartyVotes(front, cell), Accumulated(before, entries), cell,
          last.cell, last.value.value);
      }
    }
  }

  lemma PartiesAddUp(before: Column, rows: seq<PartyRow>)
    ensures PartiesFrom(before, rows, Accumulated(before, PartyEntries(rows)))
  {
    forall cell
      ensures CellFrom(before, SomeParty(rows, cell), PartyVotes(rows, cell),
                       Accumulated(before, PartyEntries(rows)), cell)
    {
      PartyAddsUp(before, rows, cell);
    }
  }

  lemma VoteSnoc(front: seq<CandidateRow>, row: CandidateRow, cell: Cell)
    ensures SomeCandidate(front + [row], cell) <==> SomeCandidate(front, cell) || CandidateRowFor(row, cell)
    ensures CandidateVotes(front + [row], cell) ==
              CandidateVotes(front, cell) + if CandidateRowFor(row, cell) then row.votes.value else 0
  {
    var rows := front + [row];
    assert rows[..|front|] == front && rows[|front|] == row;
    forall i | 0 <= i < |front| ensures rows[i] == front[i] { }
  }

  lemma {:induction false} VoteAddsUp(t: Tables, rows: seq<CandidateRow>, cell: Cell)
    ensures CellFrom(t.votes, SomeCandidate(rows, cell), CandidateVotes(rows, cell), AddRows(t, rows).votes, cell)
    ensures !SomeCandidate(rows, cell) ==> CandidateVotes(rows, cell) == 0
  {
    if rows != [] {
      var n := |rows| - 1;
      var front, row := rows[..n], rows[n];
      VoteAddsUp(t, front, cell);
      assert rows == front + [row];
      VoteSnoc(front, row, cell);
      if HasVotes(row) {
        CellStep(t.votes, SomeCandidate(front, cell), CandidateVotes(front, cell), AddRows(t, front).votes, cell,
          VoteCell(row), row.votes.value);
      }
    }
  }

  lemma VotesAddUp(t: Tables, rows: seq<CandidateRow>)
    ensures VotesFrom(t.votes, rows, AddRows(t, rows).votes)
  {
    forall cell
      ensures CellFrom(t.votes, SomeCandidate(rows, cell), CandidateVotes(rows, cell), AddRows(t, rows).votes, cell)
    {
      VoteAddsUp(t, rows, cell);
    }
  }

  lemma UnknownSnoc(front: seq<DetailRow>, row: DetailRow, cell: Cell, f: nat)
    requires Complete(front) && |row.counts| == FIELDS && f < FIELDS
    ensures Complete(front + [row])
    ensures SomeUnknown(front + [row], cell, f) <==>
              SomeUnknown(front, cell, f) || (DetailRowFor(row, cell) && row.counts[f].None?)
  {
    var rows := front + [row];
    assert rows[|front|] == row;
    if SomeUnknown(front, cell, f) {
      var i :| 0 <= i < |front| && DetailRowFor(front[i], cell) && front[i].counts[f].None?;
      assert rows[i] == front[i];
    }
  }

  lemma CountsSnoc(front: seq<DetailRow>, row: DetailRow, cell: Cell, f: nat)
    requires Complete(front) && |row.counts| == FIELDS && f < FIELDS
    ensures Complete(front + [row])
    ensures KnownCounts(front + [row], cell, f) == KnownCounts(front, cell, f)
              + if DetailRowFor(row, cell) && row.counts[f].Some? then row.counts[f].value else 0
  {
    assert (front + [row])[..|front|] == front;
  }

  lemma DetailSnoc(front: seq<DetailRow>, row: DetailRow, cell: Cell)
    ensures SomeDetail(front + [row], cell) <==> SomeDetail(front, cell) || DetailRowFor(row, cell)
  {
    var rows := front + [row];
    assert rows[|front|] == row;
    forall i | 0 <= i < |front| ensures rows[i] == front[i] { }
  }

  lemma CountStep(before: Column, front: seq<DetailRow>, row: DetailRow, f: nat, column: Column, cell: Cell)
    requires Complete(front) && |row.counts| == FIELDS && f < FIELDS && CountFrom(before, front, f, column, cell)
    ensures Complete(front + [row])
    ensures CountFrom(before, front + [row], f,
              Added(column, Cell(row.office, row.election, row.code, ""), row.counts[f]), cell)
  {
    UnknownSnoc(front, row, cell, f);
    CountsSnoc(front, row, cell, f);
    DetailSnoc(front, row, cell);
    NoCounts(front, cell, f);
  }

  lemma {:induction false} CountAddsUp(before: Column, rows: seq<DetailRow>, f: nat, cell: Cell)
    requires Complete(rows) && f < FIELDS
    ensures CountFrom(before, rows, f, Accumulated(before, FieldEntries(rows, f)), cell)
  {
    if rows != [] {
      var n := |rows| - 1;
      var front, row := rows[..n], rows[n];
      CountAddsUp(before, front, f, cell);
      assert rows == front + [row];
      assert FieldEntries(rows, f)[..n] == FieldEntries(front, f);
      CountStep(before, front, row, f, Accumulated(before, FieldEntries(front, f)), cell);
    }
  }

  lemma CountsAddUp(before: Column, rows: seq<DetailRow>, f: nat)
    requires Complete(rows) && f < FIELDS
    ensures CountsFrom(before, rows, f, Accumulated(before, FieldEntries(rows, f)))
  {
    forall cell ensures CountFrom(before, rows, f, Accumulated(before, FieldEntries(rows, f)), cell) {
      CountAddsUp(before, rows, f, cell);
    }
  }

  lemma {:induction false} NoCounts(rows: seq<DetailRow>, cell: Cell, f: nat)
    requires Complete(rows) && f < FIELDS
    ensures (forall i :: 0 <= i < |rows| ==> !DetailRowFor(rows[i], cell)) ==> KnownCounts(rows, cell, f) == 0
  {
    if rows != [] { NoCounts(rows[..|rows| - 1], cell, f); }
  }
}
