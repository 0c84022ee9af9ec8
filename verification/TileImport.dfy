/**
 Resumable import of the transport tiles: batches are committed one by one to a staging table and
 swapped into the live table at the end. Any transaction may fail, fail after committing, or be cut
 off by the death of the process.
 */
module TileImport {
  import opened Options

  datatype TileKey = TileKey(zoom: nat, x: int, y: int)

  /** A row of the MBTiles file, numbered bottom up. */
  datatype FileRow = FileRow(zoom: nat, column: int, row: int, data: seq<int>)

  datatype MbTiles = MbTiles(format: Option<string>, mark: string, rows: seq<FileRow>)

  /** The staging table; `mark` is the comment that names the file it is for. */
  datatype Staging = Staging(mark: Option<string>, rows: map<TileKey, seq<int>>)

  const ATTEMPTS := 5

  function Pow2(n: nat): nat { if n == 0 then 1 else 2 * Pow2(n - 1) }

  /** The other numbering of the same row of tiles. */
  function Flip(zoom: nat, row: int): int { Pow2(zoom) - 1 - row }

  function KeyOf(row: FileRow): TileKey { TileKey(row.zoom, row.column, Flip(row.zoom, row.row)) }

  /** Flipping is a bijection of the rows of a zoom level, and its own inverse. */
  lemma FlipIsBijection(zoom: nat, row: int)
    ensures Flip(zoom, Flip(zoom, row)) == row
    ensures 0 <= row < Pow2(zoom) <==> 0 <= Flip(zoom, row) < Pow2(zoom)
  { }

  /** The file counts its rows from the bottom and the map from the top: the bottom row of the file is the
      last one of the map, and one row up in the file is one row back on the map. */
  lemma FlipCountsBack(zoom: nat, row: int)
    ensures Flip(zoom, 0) == Pow2(zoom) - 1 && Flip(zoom, row + 1) == Flip(zoom, row) - 1
  { }

  /** There is one row at zoom 0; and one level further in, the upper half of a row in the file is the upper
      half of the same row on the map. */
  lemma FlipKeepsHalves(zoom: nat, row: int)
    ensures Flip(0, 0) == 0
    ensures Flip(zoom + 1, 2 * row + 1) == 2 * Flip(zoom, row)
    ensures Flip(zoom + 1, 2 * row) == 2 * Flip(zoom, row) + 1
  { }

  /** Two file rows get the same key only when the file numbers them the same. */
  lemma KeyIsInjective(a: FileRow, b: FileRow)
    ensures KeyOf(a) == KeyOf(b) <==> a.zoom == b.zoom && a.column == b.column && a.row == b.row
  { }

  // ---------------------------------------------------------------------------------------------
  // Tables and files
  // ---------------------------------------------------------------------------------------------

  function Keys(rows: seq<FileRow>): (keys: set<TileKey>) { set i | 0 <= i < |rows| :: KeyOf(rows[i]) }

  ghost predicate DistinctKeys(rows: seq<FileRow>) {
    forall i, j :: 0 <= i < j < |rows| ==> KeyOf(rows[i]) != KeyOf(rows[j])
  }

  ghost predicate HasTile(rows: seq<FileRow>, key: TileKey, data: seq<int>) {
    exists i :: 0 <= i < |rows| && KeyOf(rows[i]) == key && rows[i].data == data
  }

  /** Every staged tile is a tile of the file. */
  ghost predicate TilesOf(table: map<TileKey, seq<int>>, rows: seq<FileRow>) {
    forall k :: k in table ==> HasTile(rows, k, table[k])
  }

  /** The table holds every tile of the file, and nothing else. */
  ghost predicate WholeFile(table: map<TileKey, seq<int>>, rows: seq<FileRow>) {
    && table.Keys == Keys(rows)
    && forall i :: 0 <= i < |rows| ==> KeyOf(rows[i]) in table && table[KeyOf(rows[i])] == rows[i].data
  }

  /** The file row is for this tile of the map, whose rows are counted from the other side. */
  ghost predicate Shows(row: FileRow, key: TileKey) {
    row.zoom == key.zoom && row.column == key.x && row.row + key.y == Pow2(key.zoom) - 1
  }

  /** The map shows the file: every file row is the tile at its place, and every tile is from a file row. */
  ghost predicate Upright(table: map<TileKey, seq<int>>, rows: seq<FileRow>) {
    && (forall i, k :: 0 <= i < |rows| && Shows(rows[i], k) ==> k in table && table[k] == rows[i].data)
    && (forall k :: k in table ==> exists i :: 0 <= i < |rows| && Shows(rows[i], k) && rows[i].data == table[k])
  }

  lemma WholeFileIsUpright(table: map<TileKey, seq<int>>, rows: seq<FileRow>)
    ensures WholeFile(table, rows) <==> Upright(table, rows)
  {
    forall i, k | 0 <= i < |rows| ensures Shows(rows[i], k) <==> k == KeyOf(rows[i]) { }
    if WholeFile(table, rows) {
      forall k | k in table ensures exists i :: 0 <= i < |rows| && Shows(rows[i], k) && rows[i].data == table[k] {
        var i :| 0 <= i < |rows| && KeyOf(rows[i]) == k;
        assert Shows(rows[i], k);
      }
    }
    if Upright(table, rows) {
      forall i | 0 <= i < |rows| ensures KeyOf(rows[i]) in table && table[KeyOf(rows[i])] == rows[i].data {
        assert Shows(rows[i], KeyOf(rows[i]));
      }
      assert table.Keys == Keys(rows);
    }
  }

  /** Two rows of the file are for the same tile exactly when they have the same number. */
  ghost predicate NoRepeats(rows: seq<FileRow>) {
    forall i, j :: 0 <= i < j < |rows| ==>
      (rows[i].zoom, rows[i].column, rows[i].row) != (rows[j].zoom, rows[j].column, rows[j].row)
  }

  lemma NoRepeatsMeans(rows: seq<FileRow>)
    ensures NoRepeats(rows) <==> DistinctKeys(rows)
  {
    forall i, j | 0 <= i < j < |rows|
      ensures KeyOf(rows[i]) == KeyOf(rows[j]) <==>
              (rows[i].zoom, rows[i].column, rows[i].row) == (rows[j].zoom, rows[j].column, rows[j].row)
    {
      KeyIsInjective(rows[i], rows[j]);
    }
  }

  /** Insert, keeping what is already there. */
  function Insert(table: map<TileKey, seq<int>>, batch: seq<FileRow>): (after: map<TileKey, seq<int>>)
    ensures forall k :: k in table ==> k in after && after[k] == table[k]
    ensures after.Keys == table.Keys + Keys(batch)
  {
    if batch == [] then table else
    var n := |batch| - 1;
    var before := Insert(table, batch[..n]);
    var k := KeyOf(batch[n]);
    assert Keys(batch) == Keys(batch[..n]) + {k} by {
      assert batch == batch[..n] + [batch[n]];
      KeysSnoc(batch[..n], batch[n]);
    }
    if k in before then before else before[k := batch[n].data]
  }

  ghost predicate Within(batch: seq<FileRow>, rows: seq<FileRow>) {
    forall i :: 0 <= i < |batch| ==> HasTile(rows, KeyOf(batch[i]), batch[i].data)
  }

  lemma {:induction false} InsertTilesOf(table: map<TileKey, seq<int>>, batch: seq<FileRow>, rows: seq<FileRow>)
    requires TilesOf(table, rows) && Within(batch, rows)
    ensures TilesOf(Insert(table, batch), rows)
  {
    if batch != [] {
      InsertTilesOf(table, batch[..|batch| - 1], rows);
    }
  }

  lemma KeysSnoc(front: seq<FileRow>, last: FileRow)
    ensures Keys(front + [last]) == Keys(front) + {KeyOf(last)}
  {
    var rows := front + [last];
    forall k | k in Keys(front) ensures k in Keys(rows) {
      var i :| 0 <= i < |front| && KeyOf(front[i]) == k;
      assert rows[i] == front[i];
    }
    assert rows[|front|] == last;
  }

  lemma DistinctSnoc(front: seq<FileRow>, last: FileRow)
    ensures DistinctKeys(front + [last]) <==> DistinctKeys(front) && KeyOf(last) !in Keys(front)
  {
    var rows := front + [last];
    forall i | 0 <= i < |front| ensures rows[i] == front[i] && KeyOf(front[i]) in Keys(front) { }
    if KeyOf(last) in Keys(front) {
      var i :| 0 <= i < |front| && KeyOf(front[i]) == KeyOf(last);
      assert KeyOf(rows[i]) == KeyOf(rows[|front|]);
    }
  }

  /** Counting keys tells whether any repeats. */
  lemma {:induction false} CountingKeys(rows: seq<FileRow>)
    ensures |Keys(rows)| <= |rows|
    ensures |Keys(rows)| == |rows| <==> DistinctKeys(rows)
  {
    if rows != [] {
      var front, last := rows[..|rows| - 1], rows[|rows| - 1];
      assert rows == front + [last];
      CountingKeys(front);
      KeysSnoc(front, last);
      DistinctSnoc(front, last);
    }
  }

  /** The count the swap is guarded by: with every tile staged and nothing foreign, it matches
      exactly when the file repeats no key, and then the staged table is the whole file. */
  lemma CountGuard(table: map<TileKey, seq<int>>, rows: seq<FileRow>)
    requires TilesOf(table, rows) && Keys(rows) <= table.Keys
    ensures |table| == |rows| <==> NoRepeats(rows)
    ensures |table| == |rows| ==> Upright(table, rows)
  {
    WholeFileIsUpright(table, rows);
    NoRepeatsMeans(rows);
    assert table.Keys == Keys(rows);
    assert |table| == |table.Keys|;
    CountingKeys(rows);
    if DistinctKeys(rows) {
      forall i | 0 <= i < |rows| ensures KeyOf(rows[i]) in table && table[KeyOf(rows[i])] == rows[i].data {
        assert KeyOf(rows[i]) in Keys(rows);
        var j :| 0 <= j < |rows| && KeyOf(rows[j]) == KeyOf(rows[i]) && rows[j].data == table[KeyOf(rows[i])];
      }
    }
  }

  lemma SameTable(a: map<TileKey, seq<int>>, b: map<TileKey, seq<int>>, rows: seq<FileRow>)
    requires WholeFile(a, rows) && WholeFile(b, rows)
    ensures a == b
  {
    forall k | k in a ensures a[k] == b[k] {
      var i :| 0 <= i < |rows| && KeyOf(rows[i]) == k;
    }
  }

  /** A whole file is only ever one table. */
  lemma WholeFileIsUnique(a: map<TileKey, seq<int>>, b: map<TileKey, seq<int>>, rows: seq<FileRow>)
    requires Upright(a, rows) && Upright(b, rows)
    ensures a == b
  {
    WholeFileIsUpright(a, rows);
    WholeFileIsUpright(b, rows);
    SameTable(a, b, rows);
  }

  // ---------------------------------------------------------------------------------------------
  // The import
  // ---------------------------------------------------------------------------------------------

  datatype Outcome = Imported | WrongFormat | CountMismatch | Interrupted

  /** What becomes of a transaction: it is done; it fails, though it may have committed; or the process
      dies in it. */
  datatype Fate = Done | Failed(committed: bool) | Died(committed: bool) {
    predicate Commits() { Done? || committed }
  }

  /** Whether some of these transactions committed. */
  predicate SomeCommits(fate: nat -> Fate, from: nat, to: nat) {
    from < to && (SomeCommits(fate, from, to - 1) || fate(to - 1).Commits())
  }

  ghost predicate AllFailed(fate: nat -> Fate, from: nat, to: int) {
    forall i :: from <= i < to ==> fate(i).Failed?
  }

  /** The table after these attempts at a batch: inserted once, however many committed, or not at all. */
  function Written(table: map<TileKey, seq<int>>, batch: seq<FileRow>, fate: nat -> Fate, from: nat, to: nat):
    map<TileKey, seq<int>>
  {
    if SomeCommits(fate, from, to) then Insert(table, batch) else table
  }

  class TileStore {
    var live: map<TileKey, seq<int>>
    var staging: Option<Staging>
    /** Transactions so far: the next one has this number. */
    var next: nat

    /** The staging table holds only tiles of the file its mark names. */
    ghost predicate Valid(files: map<string, MbTiles>)
      reads this
    {
      staging.Some? && staging.value.mark.Some? ==>
        staging.value.mark.value in files && TilesOf(staging.value.rows, files[staging.value.mark.value].rows)
    }

    ghost predicate StagedFor(file: MbTiles)
      reads this
    {
      staging.Some? && staging.value.mark == Some(file.mark) && TilesOf(staging.value.rows, file.rows)
    }

    /** Creates or resumes the staging table, in one transaction. `ok` when the caller learns that it
        committed; the transaction may have committed all the same when not `ok`. */
    method PrepareStaging(mark: string, fate: nat -> Fate) returns (ok: bool, done: set<TileKey>)
      modifies this`staging, this`next
      ensures next == old(next) + 1 && ok == fate(old(next)).Done?
      ensures staging == if fate(old(next)).Commits() then Some(Prepared(old(staging), mark)) else old(staging)
      ensures ok ==> done == staging.value.rows.Keys
    {
      var mine := fate(next);
      next := next + 1;
      ok, done := mine.Done?, {};
      if !mine.Commits() {
        return;
      }
      var current := if staging.Some? then staging.value else Staging(None, map[]);
      if current.mark != Some(mark) {
        staging := Some(Staging(Some(mark), map[]));
      } else {
        staging := Some(current);
        done := current.rows.Keys;
      }
    }

    /** One attempt at a batch. */
    method WriteOnce(batch: seq<FileRow>, fate: nat -> Fate) returns (mine: Fate)
      requires staging.Some?
      modifies this`staging, this`next
      ensures next == old(next) + 1 && mine == fate(old(next))
      ensures var rows := old(staging).value.rows;
              staging == Some(Staging(old(staging).value.mark, if mine.Commits() then Insert(rows, batch) else rows))
    {
      mine := fate(next);
      next := next + 1;
      if mine.Commits() {
        staging := Some(staging.value.(rows := Insert(staging.value.rows, batch)));
      }
    }

    /** Writes one batch, trying again after each failure; a failed attempt may have committed. It gives
        up only when the process dies, or after the last attempt. */
    method Write(batch: seq<FileRow>, fate: nat -> Fate) returns (ok: bool)
      requires staging.Some?
      modifies this`staging, this`next
      ensures var before := old(staging).value;
              staging == Some(Staging(before.mark, Written(before.rows, batch, fate, old(next), next)))
      ensures old(next) < next <= old(next) + ATTEMPTS && ok == fate(next - 1).Done?
      ensures AllFailed(fate, old(next), next - 1)
      ensures !ok ==> fate(next - 1).Died? || next == old(next) + ATTEMPTS
    {
      ghost var before, start := staging.value, next;
      for attempt := 1 to ATTEMPTS + 1
        invariant next == start + attempt - 1
        invariant AllFailed(fate, start, next)
        invariant staging == Some(Staging(before.mark, Written(before.rows, batch, fate, start, next)))
      {
        WrittenGrows(before.rows, batch, fate, start, next);
        var mine := WriteOnce(batch, fate);
        assert mine == fate(next - 1);
        if mine.Done? {
          return true;
        }
        if attempt == ATTEMPTS || mine.Died? {
          return false;
        }
      }
      return false;
    }

    /** The swap transaction: all or nothing. */
    method Swap(fate: nat -> Fate) returns (ok: bool)
      requires staging.Some?
      modifies this
      ensures next == old(next) + 1 && ok == fate(old(next)).Done?
      ensures if fate(old(next)).Commits() then live == old(staging).value.rows && staging == None
              else live == old(live) && staging == old(staging)
    {
      var mine := fate(next);
      next := next + 1;
      ok := mine.Done?;
      if mine.Commits() {
        live := staging.value.rows;
        staging := None;
      }
    }

    /** One run of the importer on `file`, the file its mark names. */
    method Ingest(file: MbTiles, size: nat, fate: nat -> Fate, ghost files: map<string, MbTiles>)
        returns (outcome: Outcome)
      requires size > 0 && file.mark in files && files[file.mark] == file
      requires Valid(files)
      modifies this
      ensures Valid(files)
      ensures live == old(live) || (Upright(live, file.rows) && NoRepeats(file.rows) && staging == None)
      ensures outcome == Imported ==> Upright(live, file.rows) && NoRepeats(file.rows) && staging == None
      ensures outcome == CountMismatch ==> !NoRepeats(file.rows) && live == old(live)
      ensures outcome == WrongFormat <==> file.format != Some("pbf")
      ensures outcome == Interrupted ==> next > old(next) && !fate(next - 1).Done?
      ensures (forall i :: fate(i).Done?) ==>
                outcome == if file.format != Some("pbf") then WrongFormat
                           else if NoRepeats(file.rows) then Imported else CountMismatch
      ensures live == old(live) && old(StagedFor(file)) && staging.Some? ==>
                staging.value.mark == Some(file.mark) && old(staging).value.rows.Keys <= staging.value.rows.Keys
    {
      if file.format != Some("pbf") {
        return WrongFormat;
      }
      var ok, done := PrepareStaging(file.mark, fate);
      if !ok {
        return Interrupted;
      }
      ok := StageRows(file, size, done, fate);
      if !ok {
        return Interrupted;
      }
      outcome := Publish(file, fate);
    }

    /** Counts what is staged, and swaps it in if the count is right. */
    method Publish(file: MbTiles, fate: nat -> Fate) returns (outcome: Outcome)
      requires StagedFor(file) && Keys(file.rows) <= staging.value.rows.Keys
      modifies this
      ensures staging == old(staging) || staging == None
      ensures live == old(live) || (Upright(live, file.rows) && NoRepeats(file.rows) && staging == None)
      ensures outcome == if !NoRepeats(file.rows) then CountMismatch
                         else if fate(old(next)).Done? then Imported else Interrupted
      ensures outcome == Imported ==> Upright(live, file.rows) && staging == None
      ensures outcome == CountMismatch ==> live == old(live)
      ensures outcome == Interrupted ==> next == old(next) + 1
    {
      CountGuard(staging.value.rows, file.rows);
      if |staging.value.rows| != |file.rows| {
        return CountMismatch;
      }
      var ok := Swap(fate);
      return if ok then Imported else Interrupted;
    }

    method StagePending(file: MbTiles, pending: seq<FileRow>, fate: nat -> Fate) returns (ok: bool)
      requires StagedFor(file) && Within(pending, file.rows)
      modifies this`staging, this`next
      ensures StagedFor(file) && old(staging).value.rows.Keys <= staging.value.rows.Keys && next >= old(next)
      ensures ok ==> Keys(pending) <= staging.value.rows.Keys
      ensures !ok ==> next > old(next) && !fate(next - 1).Done?
    {
      ok := true;
      if pending != [] {
        InsertTilesOf(staging.value.rows, pending, file.rows);
        ok := Write(pending, fate);
      }
    }

    /** Stages the tiles of the file that are not there yet, batch by batch. */
    method StageRows(file: MbTiles, size: nat, done: set<TileKey>, fate: nat -> Fate) returns (ok: bool)
      requires size > 0 && StagedFor(file) && done == staging.value.rows.Keys
      modifies this`staging, this`next
      ensures StagedFor(file) && done <= staging.value.rows.Keys && next >= old(next)
      ensures ok ==> Keys(file.rows) <= staging.value.rows.Keys
      ensures !ok ==> next > old(next) && !fate(next - 1).Done?
    {
      var total := 0;
      while total < |file.rows|
        invariant 0 <= total <= |file.rows| && next >= old(next)
        invariant StagedFor(file) && done <= staging.value.rows.Keys
        invariant Keys(file.rows[..total]) <= staging.value.rows.Keys
      {
        var end := if total + size <= |file.rows| then total + size else |file.rows|;
        PendingWithin(file.rows, total, end, done);
        ok := StagePending(file, NotDone(file.rows[total..end], done), fate);
        if !ok {
          return false;
        }
        BatchStaged(file.rows, total, end, done, staging.value.rows.Keys);
        total := end;
      }
      assert file.rows[..total] == file.rows;
      return true;
    }
  }

  lemma WrittenGrows(table: map<TileKey, seq<int>>, batch: seq<FileRow>, fate: nat -> Fate, from: nat, to: nat)
    requires from <= to
    ensures var before := Written(table, batch, fate, from, to);
            Written(table, batch, fate, from, to + 1) == if fate(to).Commits() then Insert(before, batch) else before
  {
    InsertTwice(table, batch);
  }

  /** What preparing makes of the staging table: kept when it is for the same file, emptied if not. */
  function Prepared(staging: Option<Staging>, mark: string): Staging {
    if staging.Some? && staging.value.mark == Some(mark) then staging.value else Staging(Some(mark), map[])
  }

  lemma {:induction false} InsertTwice(table: map<TileKey, seq<int>>, batch: seq<FileRow>)
    ensures Insert(Insert(table, batch), batch) == Insert(table, batch)
  {
    InsertPresent(Insert(table, batch), batch);
  }

  lemma {:induction false} InsertPresent(table: map<TileKey, seq<int>>, batch: seq<FileRow>)
    requires Keys(batch) <= table.Keys
    ensures Insert(table, batch) == table
  {
    if batch != [] {
      var n := |batch| - 1;
      assert Keys(batch) == Keys(batch[..n]) + {KeyOf(batch[n])};
      InsertPresent(table, batch[..n]);
    }
  }

  function NotDone(batch: seq<FileRow>, done: set<TileKey>): (pending: seq<FileRow>)
    ensures forall r :: r in pending <==> r in batch && KeyOf(r) !in done
  {
    if batch == [] then [] else
    var rest := NotDone(batch[1..], done);
    if KeyOf(batch[0]) in done then rest else [batch[0]] + rest
  }

  lemma PendingWithin(rows: seq<FileRow>, total: nat, end: nat, done: set<TileKey>)
    requires total <= end <= |rows|
    ensures Within(NotDone(rows[total..end], done), rows)
  {
    var batch := rows[total..end];
    var pending := NotDone(batch, done);
    forall i | 0 <= i < |pending| ensures HasTile(rows, KeyOf(pending[i]), pending[i].data) {
      assert pending[i] in pending;
      var j :| 0 <= j < |batch| && batch[j] == pending[i];
      assert rows[total + j] == batch[j];
    }
  }

  /** After its pending tiles are written, a whole batch is staged. */
  lemma BatchStaged(rows: seq<FileRow>, total: nat, end: nat, done: set<TileKey>, staged: set<TileKey>)
    requires total <= end <= |rows|
    requires done <= staged && Keys(rows[..total]) <= staged && Keys(NotDone(rows[total..end], done)) <= staged
    ensures Keys(rows[..end]) <= staged
  {
    var batch := rows[total..end];
    var pending := NotDone(batch, done);
    forall i | 0 <= i < end ensures KeyOf(rows[i]) in staged {
      if i < total {
        assert KeyOf(rows[..total][i]) in Keys(rows[..total]);
      } else {
        assert batch[i - total] == rows[i] && rows[i] in batch;
        if KeyOf(rows[i]) !in done {
          assert rows[i] in pending;
          var j :| 0 <= j < |pending| && pending[j] == rows[i];
          assert KeyOf(pending[j]) in Keys(pending);
        }
      }
    }
  }

  /** Any number of runs, on any files, each cut off anywhere: the live table is what it was, or
      exactly one of the files, whole. */
  method ImportAll(store: TileStore, queue: seq<MbTiles>, size: nat, fate: nat -> Fate,
                   ghost files: map<string, MbTiles>)
    requires size > 0 && store.Valid(files)
    requires forall i :: 0 <= i < |queue| ==> queue[i].mark in files && files[queue[i].mark] == queue[i]
    modifies store
    ensures store.Valid(files)
    ensures store.live == old(store.live) || exists i :: 0 <= i < |queue| && Upright(store.live, queue[i].rows)
  {
    for n := 0 to |queue|
      invariant store.Valid(files)
      invariant store.live == old(store.live) || exists i :: 0 <= i < n && Upright(store.live, queue[i].rows)
    {
      var outcome := store.Ingest(queue[n], size, fate, files);
    }
  }
}
