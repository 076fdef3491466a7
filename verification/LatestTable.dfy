/** The snapshot log of a kind of object and the table of latest versions that triggers keep beside it. */
module LatestTable {

  /** A stored value; the order is the database's. */
  datatype Cell = Null | Value(rank: int)

  type Row = map<string, Cell>

  const OBJECT_ID := "object_id"

  const CREATED_AT := "created_at"

  /** One assignment of the upsert: overwrite, or keep the larger value. */
  datatype Part = Overwrite(column: string) | KeepLarger(column: string)

  /** SQLite's two-argument MAX: NULL as soon as either argument is. */
  function MaxCell(a: Cell, b: Cell): Cell {
    if a.Null? || b.Null? then Null
    else if a.rank >= b.rank then a else b
  }

  function PartsFor(columns: seq<string>, monotonic: set<string>): seq<Part> {
    if columns == [] then []
    else
      var c := columns[|columns| - 1];
      PartsFor(columns[..|columns| - 1], monotonic)
      + (if c == OBJECT_ID || c == CREATED_AT then []
         else if c in monotonic then [KeepLarger(c)] else [Overwrite(c)])
  }

  function PartValue(part: Part, before: Cell, excluded: Cell): Cell {
    if part.KeepLarger? then MaxCell(before, excluded) else excluded
  }

  /** What an upsert makes of one column. */
  function Updated(c: string, monotonic: set<string>, before: Cell, excluded: Cell): Cell {
    if c == OBJECT_ID || c == CREATED_AT then before
    else if c in monotonic then MaxCell(before, excluded)
    else excluded
  }

  /** The assignments carried out; every right-hand side sees the row as it was. */
  function Assigned(parts: seq<Part>, before: Row, excluded: Row): Row {
    if parts == [] then before
    else
      var part, rest := parts[|parts| - 1], Assigned(parts[..|parts| - 1], before, excluded);
      var c := part.column;
      if c !in before || c !in excluded then rest
      else rest[c := PartValue(part, before[c], excluded[c])]
  }

  predicate HasColumns(row: Row, columns: seq<string>) {
    row.Keys == set c | c in columns
  }

  predicate Distinct(columns: seq<string>) {
    forall i, j | 0 <= i < j < |columns| :: columns[i] != columns[j]
  }

  lemma {:induction false} PartsAre(columns: seq<string>, monotonic: set<string>)
    ensures forall p <- PartsFor(columns, monotonic) ::
      && p.column in columns && p.column != OBJECT_ID && p.column != CREATED_AT
      && (p.KeepLarger? <==> p.column in monotonic)
    ensures forall c <- columns :: c != OBJECT_ID && c != CREATED_AT ==>
      (if c in monotonic then KeepLarger(c) else Overwrite(c)) in PartsFor(columns, monotonic)
  {
    if columns != [] {
      PartsAre(columns[..|columns| - 1], monotonic);
    }
  }

  lemma {:induction false} AssignedIs(parts: seq<Part>, before: Row, excluded: Row)
    requires before.Keys == excluded.Keys
    requires forall p, q | p in parts && q in parts :: p.column == q.column ==> p == q
    ensures Assigned(parts, before, excluded).Keys == before.Keys
    ensures forall p <- parts :: p.column in before ==>
      Assigned(parts, before, excluded)[p.column] == PartValue(p, before[p.column], excluded[p.column])
    ensures forall c <- before.Keys :: (forall p <- parts :: p.column != c) ==>
      Assigned(parts, before, excluded)[c] == before[c]
  {
    if parts != [] {
      var rest := parts[..|parts| - 1];
      AssignedIs(rest, before, excluded);
      assert forall p :: p in parts <==> p in rest || p == parts[|parts| - 1];
    }
  }

  /** What the upsert does to an existing row, column by column. */
  lemma {:induction false} UpsertIs(columns: seq<string>, monotonic: set<string>, before: Row, excluded: Row)
    requires HasColumns(before, columns) && HasColumns(excluded, columns)
    ensures
      var after := Assigned(PartsFor(columns, monotonic), before, excluded);
      HasColumns(after, columns)
      && forall c <- columns :: after[c] == Updated(c, monotonic, before[c], excluded[c])
  {
    var parts := PartsFor(columns, monotonic);
    PartsAre(columns, monotonic);
    AssignedIs(parts, before, excluded);
    var after := Assigned(parts, before, excluded);
    forall c <- columns
      ensures after[c] == Updated(c, monotonic, before[c], excluded[c])
    {
      if c != OBJECT_ID && c != CREATED_AT {
        var p := if c in monotonic then KeepLarger(c) else Overwrite(c);
        assert p in parts;
      }
    }
  }

  // ---------------------------------------------------------------- the latest version, from the log alone

  /** The rows logged for one object, oldest first. */
  function RowsFor(log: seq<Row>, id: Cell): seq<Row> {
    if log == [] then []
    else
      var row := log[|log| - 1];
      RowsFor(log[..|log| - 1], id) + if OBJECT_ID in row && row[OBJECT_ID] == id then [row] else []
  }

  /** `cell` is the largest value the column ever had, or null if it was ever null. */
  predicate Tops(cell: Cell, rows: seq<Row>, c: string) {
    && (forall row <- rows :: c in row)
    && (cell.Null? <==> exists row: Row <- rows :: row[c].Null?)
    && (cell.Value? ==>
      && (exists row <- rows :: row[c] == cell)
      && (forall row: Row <- rows :: row[c].Value? && row[c].rank <= cell.rank))
  }

  predicate IsLatest(latest: Row, rows: seq<Row>, columns: seq<string>, monotonic: set<string>) {
    && rows != [] && HasColumns(latest, columns)
    && (forall i | 0 <= i < |rows| :: HasColumns(rows[i], columns))
    && forall c <- columns ::
         if c == OBJECT_ID || c == CREATED_AT then latest[c] == rows[0][c]
         else if c in monotonic then Tops(latest[c], rows, c)
         else latest[c] == rows[|rows| - 1][c]
  }

  lemma {:induction false} TopsNext(cell: Cell, rows: seq<Row>, row: Row, c: string)
    requires Tops(cell, rows, c) && c in row
    ensures Tops(MaxCell(cell, row[c]), rows + [row], c)
  {
    var more := rows + [row];
    assert forall r :: r in more <==> r in rows || r == row;
    var top := MaxCell(cell, row[c]);
    if top.Value? {
      assert top == row[c] || exists r <- rows :: r[c] == top;
    }
  }

  lemma {:induction false} UpsertKeepsLatest(latest: Row, rows: seq<Row>, row: Row, columns: seq<string>,
                                             monotonic: set<string>)
    requires IsLatest(latest, rows, columns, monotonic) && HasColumns(row, columns)
    ensures IsLatest(Assigned(PartsFor(columns, monotonic), latest, row), rows + [row], columns, monotonic)
  {
    UpsertIs(columns, monotonic, latest, row);
    var after, more := Assigned(PartsFor(columns, monotonic), latest, row), rows + [row];
    assert forall r :: r in more <==> r in rows || r == row;
    forall c | c in columns && c in monotonic && c != OBJECT_ID && c != CREATED_AT
      ensures Tops(after[c], more, c)
    {
      TopsNext(latest[c], rows, row, c);
    }
  }

  lemma {:induction false} FirstIsLatest(row: Row, columns: seq<string>, monotonic: set<string>)
    requires HasColumns(row, columns)
    ensures IsLatest(row, [row], columns, monotonic)
  {
    forall c | c in columns
      ensures Tops(row[c], [row], c)
    {
      assert row in [row];
    }
  }

  lemma {:induction false} RowsAre(log: seq<Row>, id: Cell)
    ensures forall row :: row in RowsFor(log, id) <==> row in log && OBJECT_ID in row && row[OBJECT_ID] == id
  {
    if log != [] {
      RowsAre(log[..|log| - 1], id);
      assert forall row :: row in log <==> row in log[..|log| - 1] || row == log[|log| - 1];
    }
  }

  /** The table of latest versions says what the log says. */
  ghost predicate Reflects(latest: map<Cell, Row>, log: seq<Row>, columns: seq<string>, monotonic: set<string>) {
    && (forall row <- log :: HasColumns(row, columns))
    && (forall id :: id in latest <==> RowsFor(log, id) != [])
    && forall id <- latest :: IsLatest(latest[id], RowsFor(log, id), columns, monotonic)
  }

  function Upserted(latest: map<Cell, Row>, row: Row, columns: seq<string>, monotonic: set<string>): map<Cell, Row>
    requires OBJECT_ID in row
  {
    var id := row[OBJECT_ID];
    latest[id := if id in latest then Assigned(PartsFor(columns, monotonic), latest[id], row) else row]
  }

  lemma {:induction false} RowsForMore(log: seq<Row>, row: Row, id: Cell)
    requires OBJECT_ID in row
    ensures RowsFor(log + [row], id) == if row[OBJECT_ID] == id then RowsFor(log, id) + [row] else RowsFor(log, id)
  {
    assert (log + [row])[..|log|] == log;
    assert RowsFor(log, id) + [] == RowsFor(log, id);
  }

  /** One object's entry after an upsert, which may have been for another object. */
  lemma {:induction false} UpsertAt(latest: map<Cell, Row>, log: seq<Row>, row: Row, columns: seq<string>,
                                    monotonic: set<string>, id: Cell)
    requires Reflects(latest, log, columns, monotonic) && HasColumns(row, columns) && OBJECT_ID in columns
    ensures id in Upserted(latest, row, columns, monotonic) <==> RowsFor(log + [row], id) != []
    ensures id in Upserted(latest, row, columns, monotonic) ==>
      IsLatest(Upserted(latest, row, columns, monotonic)[id], RowsFor(log + [row], id), columns, monotonic)
  {
    RowsForMore(log, row, id);
    if id == row[OBJECT_ID] {
      if id in latest {
        UpsertKeepsLatest(latest[id], RowsFor(log, id), row, columns, monotonic);
      } else {
        FirstIsLatest(row, columns, monotonic);
        assert RowsFor(log, id) + [row] == [row];
      }
    }
  }

  lemma {:induction false} UpsertKeepsReflecting(latest: map<Cell, Row>, log: seq<Row>, row: Row, columns: seq<string>,
                                                 monotonic: set<string>)
    requires Reflects(latest, log, columns, monotonic) && HasColumns(row, columns) && OBJECT_ID in columns
    ensures Reflects(Upserted(latest, row, columns, monotonic), log + [row], columns, monotonic)
  {
    forall id {
      UpsertAt(latest, log, row, columns, monotonic, id);
    }
  }

  // ---------------------------------------------------------------- what a reader of the latest table can rely on

  /** Monotonic columns do not depend on the order in which the rows arrived, nor on repetitions. */
  lemma {:induction false} MonotonicColumnsForgetOrder(
      a: map<Cell, Row>, logA: seq<Row>, b: map<Cell, Row>, logB: seq<Row>, columns: seq<string>,
      monotonic: set<string>, id: Cell, c: string)
    requires Reflects(a, logA, columns, monotonic) && Reflects(b, logB, columns, monotonic)
    requires forall row :: row in logA <==> row in logB
    requires c in monotonic && c in columns && c != OBJECT_ID && c != CREATED_AT
    ensures id in a <==> id in b
    ensures id in a ==> a[id][c] == b[id][c]
  {
    RowsAre(logA, id);
    RowsAre(logB, id);
    var rowsA, rowsB := RowsFor(logA, id), RowsFor(logB, id);
    assert forall row :: row in rowsA <==> row in rowsB;
    EmptyTogether(rowsA, rowsB);
    if rowsA != [] {
      TopIsUnique(a[id][c], b[id][c], rowsA, rowsB, c);
    }
  }

  lemma {:induction false} EmptyTogether(rowsA: seq<Row>, rowsB: seq<Row>)
    requires forall row :: row in rowsA <==> row in rowsB
    ensures rowsA == [] <==> rowsB == []
  {
    if rowsA != [] {
      assert rowsA[0] in rowsB;
    }
    if rowsB != [] {
      assert rowsB[0] in rowsA;
    }
  }

  lemma {:induction false} TopIsUnique(x: Cell, y: Cell, rowsA: seq<Row>, rowsB: seq<Row>, c: string)
    requires Tops(x, rowsA, c) && Tops(y, rowsB, c)
    requires forall row :: row in rowsA <==> row in rowsB
    ensures x == y
  {
    if x.Value? && y.Value? {
      var rowX: Row :| rowX in rowsA && rowX[c] == x;
      var rowY: Row :| rowY in rowsB && rowY[c] == y;
      assert rowX in rowsB && rowY in rowsA;
    }
  }

  /** A later row, however stale, cannot lower a monotonic column; but it takes the value away if and only if it
      brings a null. */
  lemma {:induction false} StaleRowCannotLower(latest: map<Cell, Row>, log: seq<Row>, row: Row, columns: seq<string>,
                                               monotonic: set<string>, c: string)
    requires Reflects(latest, log, columns, monotonic) && HasColumns(row, columns) && OBJECT_ID in columns
    requires row[OBJECT_ID] in latest && c in monotonic && c in columns && c != OBJECT_ID && c != CREATED_AT
    requires latest[row[OBJECT_ID]][c].Value?
    ensures
      var before := latest[row[OBJECT_ID]];
      var after := Assigned(PartsFor(columns, monotonic), before, row);
      && c in after
      && (after[c].Null? <==> row[c].Null?)
      && (after[c].Value? ==> after[c].rank >= before[c].rank && after[c].rank >= row[c].rank)
  {
    UpsertIs(columns, monotonic, latest[row[OBJECT_ID]], row);
  }

  lemma {:induction false} EndsAreLogged(log: seq<Row>, id: Cell)
    ensures RowsFor(log, id) != [] ==>
      RowsFor(log, id)[0] in log && RowsFor(log, id)[|RowsFor(log, id)| - 1] in log
  {
    RowsAre(log, id);
    var rows := RowsFor(log, id);
    if rows != [] {
      assert rows[0] in rows && rows[|rows| - 1] in rows;
    }
  }

  lemma {:induction false} EndsHaveColumns(latest: Row, rows: seq<Row>, columns: seq<string>, monotonic: set<string>)
    requires IsLatest(latest, rows, columns, monotonic)
    ensures HasColumns(latest, columns) && HasColumns(rows[0], columns) && HasColumns(rows[|rows| - 1], columns)
  {
  }

  /** The first row settles when an object was created, the last one everything ordinary. */
  lemma {:induction false} FirstAndLastRowSettle(latest: map<Cell, Row>, log: seq<Row>, columns: seq<string>,
                                                 monotonic: set<string>, id: Cell, c: string)
    requires Reflects(latest, log, columns, monotonic) && id in latest && c in columns && CREATED_AT in columns
    ensures
      var rows := RowsFor(log, id);
      && rows != [] && rows[0] in log && CREATED_AT in rows[0] && CREATED_AT in latest[id]
      && latest[id][CREATED_AT] == rows[0][CREATED_AT]
      && (c !in monotonic && c != OBJECT_ID && c != CREATED_AT ==>
        c in rows[|rows| - 1] && c in latest[id] && latest[id][c] == rows[|rows| - 1][c])
  {
    EndsAreLogged(log, id);
    EndsHaveColumns(latest[id], RowsFor(log, id), columns, monotonic);
  }

  /** The snapshot of a logged row may carry another creation time. */
  predicate Restamps(snapshot: Row, row: Row) {
    snapshot.Keys == row.Keys && forall c <- row :: c != CREATED_AT ==> snapshot[c] == row[c]
  }

  /** The snapshot table holds exactly the logged rows, the k-th under `ids[k]`. */
  ghost predicate Stored(snapshots: map<nat, Row>, ids: seq<nat>, log: seq<Row>) {
    && |ids| == |log| && snapshots.Keys == (set id | id in ids)
    && (forall i, j | 0 <= i < j < |ids| :: ids[i] != ids[j])
    && forall k | 0 <= k < |log| :: ids[k] in snapshots && Restamps(snapshots[ids[k]], log[k])
  }

  /** The row has a value in every required column. */
  predicate Fills(row: Row, required: set<string>) {
    forall c <- row.Keys :: c in required ==> row[c].Value?
  }

  predicate Complete(log: seq<Row>, required: set<string>) {
    forall row <- log :: Fills(row, required)
  }

  lemma {:induction false} StoringOne(
    snapshots: map<nat, Row>, ids: seq<nat>, log: seq<Row>, id: nat, row: Row, stamp: Cell)
    requires Stored(snapshots, ids, log) && id !in snapshots && CREATED_AT in row
    ensures Stored(snapshots[id := row[CREATED_AT := stamp]], ids + [id], log + [row])
  {
    forall k | 0 <= k < |log|
      ensures ids[k] != id
    {
      assert ids[k] in snapshots;
    }
  }

  lemma {:induction false} StampingLast(snapshots: map<nat, Row>, id: nat, row: Row, stamped: Row)
    ensures snapshots[id := row][id := stamped] == snapshots[id := stamped]
  {
  }

  /** A required column is never null in the latest table, so that a row cannot take a monotonic value away. */
  lemma {:induction false} RequiredIsNeverNull(
    latest: map<Cell, Row>, log: seq<Row>, columns: seq<string>, monotonic: set<string>, required: set<string>,
    id: Cell, c: string)
    requires Reflects(latest, log, columns, monotonic) && Complete(log, required)
    requires id in latest && c in columns && c in required
    ensures c in latest[id] && latest[id][c].Value?
  {
    RowsAre(log, id);
    EndsAreLogged(log, id);
    EndsHaveColumns(latest[id], RowsFor(log, id), columns, monotonic);
  }

  class Tables {
    const columns: seq<string>
    const monotonic: set<string>
    const required: set<string>
    var parts: seq<Part>
    var snapshots: map<nat, Row>
    var latest: map<Cell, Row>
    /** The rows as the clients inserted them, in the order of the commits. */
    ghost var log: seq<Row>

    /** The identifiers of the stored snapshots, in the order of the commits. */
    ghost var ids: seq<nat>

    ghost predicate Valid()
      reads this
    {
      InStep() && Stored(snapshots, ids, log) && Complete(log, required)
    }

    /** The latest table is the fold of the log. */
    ghost predicate InStep()
      reads this`latest, this`log, this`parts
    {
      && OBJECT_ID in columns && CREATED_AT in columns && Distinct(columns)
      && parts == PartsFor(columns, monotonic)
      && Reflects(latest, log, columns, monotonic)
    }

    constructor (columns: seq<string>, monotonic: set<string>, required: set<string>)
      requires OBJECT_ID in columns && CREATED_AT in columns && Distinct(columns)
      ensures Valid() && log == [] && latest == map[] && snapshots == map[]
      ensures this.columns == columns && this.monotonic == monotonic && this.required == required
    {
      this.columns, this.monotonic, this.required := columns, monotonic, required;
      snapshots, latest, log, parts, ids := map[], map[], [], [], [];
      new;
      for i := 0 to |columns|
        invariant parts == PartsFor(columns[..i], monotonic)
        invariant log == [] && latest == map[] && snapshots == map[] && ids == []
      {
        assert columns[..i + 1][..i] == columns[..i];
        if columns[i] != OBJECT_ID && columns[i] != CREATED_AT {
          parts := parts + [if columns[i] in monotonic then KeepLarger(columns[i]) else Overwrite(columns[i])];
        }
      }
      assert columns[..|columns|] == columns;
    }

    /** The trigger that runs before a snapshot is inserted. */
    method BeforeInsert(row: Row)
      requires InStep() && HasColumns(row, columns)
      modifies this`latest, this`log
      ensures InStep() && log == old(log) + [row]
      ensures latest == Upserted(old(latest), row, columns, monotonic)
    {
      UpsertKeepsReflecting(latest, log, row, columns, monotonic);
      ghost var upserted := Upserted(latest, row, columns, monotonic);
      var id := row[OBJECT_ID];
      latest := latest[id := if id in latest then Assigned(parts, latest[id], row) else row];
      assert latest == upserted;
      log := log + [row];
    }

    /** The insert itself, and the trigger that runs afterwards: it stamps the snapshot, not the latest version. */
    method StoreSnapshot(snapshotId: nat, row: Row, now: int)
      requires log != [] && log[|log| - 1] == row && CREATED_AT in row
      requires snapshotId !in snapshots && Stored(snapshots, ids, log[..|log| - 1])
      modifies this`snapshots, this`ids
      ensures Stored(snapshots, ids, log)
      ensures snapshots == old(snapshots)[snapshotId := row[CREATED_AT := Value(now)]]
    {
      StoringOne(snapshots, ids, log[..|log| - 1], snapshotId, row, Value(now));
      assert log[..|log| - 1] + [row] == log;
      StampingLast(snapshots, snapshotId, row, row[CREATED_AT := Value(now)]);
      ids := ids + [snapshotId];
      snapshots := snapshots[snapshotId := row];
      snapshots := snapshots[snapshotId := row[CREATED_AT := Value(now)]];
    }

    /** The two triggers around an insert that nothing stands against. */
    method InsertRow(snapshotId: nat, row: Row, now: int)
      requires Valid() && HasColumns(row, columns) && Fills(row, required) && snapshotId !in snapshots
      modifies this`snapshots, this`latest, this`log, this`ids
      ensures Valid() && log == old(log) + [row]
      ensures latest == Upserted(old(latest), row, columns, monotonic)
      ensures snapshots == old(snapshots)[snapshotId := row[CREATED_AT := Value(now)]]
    {
      BeforeInsert(row);
      assert log[..|log| - 1] == old(log);
      StoreSnapshot(snapshotId, row, now);
    }

    /** One insert statement.  It takes effect as a whole or not at all: a missing value in a required column, a
        violated constraint of the latest table or a snapshot identifier already in use undoes it. */
    method Insert(snapshotId: nat, row: Row, violates: bool, now: int) returns (inserted: bool)
      requires Valid() && HasColumns(row, columns)
      modifies this`snapshots, this`latest, this`log, this`ids
      ensures Valid()
      ensures inserted == (!violates && snapshotId !in old(snapshots) && Fills(row, required))
      ensures inserted ==> log == old(log) + [row] && latest == Upserted(old(latest), row, columns, monotonic)
      ensures inserted ==> snapshots == old(snapshots)[snapshotId := row[CREATED_AT := Value(now)]]
      ensures !inserted ==> log == old(log) && latest == old(latest) && snapshots == old(snapshots)
    {
      inserted := !violates && snapshotId !in snapshots && Fills(row, required);
      if inserted {
        InsertRow(snapshotId, row, now);
      }
    }
  }
}
