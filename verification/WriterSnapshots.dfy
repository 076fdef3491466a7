/** Transactions that write through a snapshot of the latest table taken when they began.  An immediate one takes the
    writer's slot together with its snapshot, a deferred one only when it first writes. */
module WriterSnapshots {
  import opened LatestTable

  type Latest = map<Cell, Row>

  datatype Schema = Schema(columns: seq<string>, monotonic: set<string>)

  datatype Transaction = Transaction(base: Latest, rows: seq<Row>, immediate: bool)

  datatype Writer = Nobody | Held(holder: nat)

  /** `log` holds the committed rows in the order of the commits. */
  datatype Store = Store(latest: Latest, log: seq<Row>, writer: Writer, open: map<nat, Transaction>)

  datatype Action =
    | Begin(id: nat, immediate: bool)
    | Write(id: nat, row: Row)
    | Commit(id: nat)
    | Rollback(id: nat)

  const EMPTY := Store(map[], [], Nobody, map[])

  /** The latest table as the transaction's own triggers leave it. */
  function View(schema: Schema, base: Latest, rows: seq<Row>): Latest
    requires forall row <- rows :: OBJECT_ID in row
  {
    if rows == [] then base
    else
      Upserted(View(schema, base, rows[..|rows| - 1]), rows[|rows| - 1], schema.columns, schema.monotonic)
  }

  function Touched(rows: seq<Row>): set<Cell>
    requires forall row <- rows :: OBJECT_ID in row
  {
    set row | row in rows :: row[OBJECT_ID]
  }

  lemma {:induction false} ViewKeys(schema: Schema, base: Latest, rows: seq<Row>)
    requires forall row <- rows :: OBJECT_ID in row
    ensures View(schema, base, rows).Keys == base.Keys + Touched(rows)
    ensures forall id <- base :: id !in Touched(rows) ==> View(schema, base, rows)[id] == base[id]
  {
    if rows != [] {
      var before, last := rows[..|rows| - 1], rows[|rows| - 1];
      ViewKeys(schema, base, before);
      assert rows == before + [last];
      assert Touched(rows) == Touched(before) + {last[OBJECT_ID]};
    }
  }

  /** The rows a transaction wrote replace the committed ones; all others stay. */
  function Committed(schema: Schema, latest: Latest, tx: Transaction): Latest
    requires forall row <- tx.rows :: OBJECT_ID in row
  {
    ViewKeys(schema, tx.base, tx.rows);
    var view := View(schema, tx.base, tx.rows);
    map id | id in latest.Keys + Touched(tx.rows) :: if id in Touched(tx.rows) then view[id] else latest[id]
  }

  predicate RowsOk(schema: Schema, rows: seq<Row>) {
    && OBJECT_ID in schema.columns
    && forall row <- rows :: HasColumns(row, schema.columns)
  }

  predicate Ok(schema: Schema, s: Store) {
    forall t <- s.open :: RowsOk(schema, s.open[t].rows)
  }

  predicate Enabled(schema: Schema, s: Store, a: Action) {
    match a
    case Begin(t, immediate) => t !in s.open && (immediate ==> s.writer.Nobody?)
    case Write(t, row) =>
      t in s.open && HasColumns(row, schema.columns) && OBJECT_ID in schema.columns && s.writer in {Nobody, Held(t)}
    case Commit(t) => t in s.open
    case Rollback(t) => t in s.open
  }

  function Released(s: Store, t: nat): Store {
    s.(open := s.open - {t}, writer := if s.writer == Held(t) then Nobody else s.writer)
  }

  function Next(schema: Schema, s: Store, a: Action): Store
    requires Ok(schema, s) && Enabled(schema, s, a)
  {
    match a
    case Begin(t, immediate) =>
      s.(open := s.open[t := Transaction(s.latest, [], immediate)], writer := if immediate then Held(t) else s.writer)
    case Write(t, row) =>
      s.(open := s.open[t := s.open[t].(rows := s.open[t].rows + [row])], writer := Held(t))
    case Commit(t) =>
      var tx := s.open[t];
      assert RowsOk(schema, tx.rows);
      Released(s, t).(latest := Committed(schema, s.latest, tx), log := s.log + tx.rows)
    case Rollback(t) => Released(s, t)
  }

  // ---------------------------------------------------------------- what every run keeps

  predicate TableOk(schema: Schema, latest: Latest) {
    && OBJECT_ID in schema.columns
    && forall id <- latest :: HasColumns(latest[id], schema.columns)
  }

  /** Only the holder of the writer's slot has written, and an immediate transaction sees the committed table. */
  predicate TransactionInv(schema: Schema, s: Store, t: nat)
    requires t in s.open
  {
    var tx := s.open[t];
    && RowsOk(schema, tx.rows) && TableOk(schema, tx.base)
    && (tx.rows != [] ==> s.writer == Held(t))
    && (tx.immediate ==> s.writer == Held(t) && tx.base == s.latest)
  }

  predicate Inv(schema: Schema, s: Store) {
    && TableOk(schema, s.latest)
    && forall t <- s.open :: TransactionInv(schema, s, t)
  }

  lemma {:induction false} ViewOk(schema: Schema, base: Latest, rows: seq<Row>)
    requires TableOk(schema, base) && RowsOk(schema, rows)
    ensures TableOk(schema, View(schema, base, rows))
  {
    if rows != [] {
      var before, last := rows[..|rows| - 1], rows[|rows| - 1];
      assert last in rows;
      ViewOk(schema, base, before);
      var view, id := View(schema, base, before), last[OBJECT_ID];
      if id in view {
        UpsertIs(schema.columns, schema.monotonic, view[id], last);
      }
    }
  }

  lemma NothingCommitted(schema: Schema, latest: Latest, tx: Transaction)
    requires tx.rows == []
    ensures Committed(schema, latest, tx) == latest
  {
  }

  lemma StepKeepsInv(schema: Schema, s: Store, a: Action)
    requires Inv(schema, s) && Enabled(schema, s, a)
    ensures Ok(schema, s) && Inv(schema, Next(schema, s, a))
  {
    var s' := Next(schema, s, a);
    if a.Commit? {
      var tx := s.open[a.id];
      assert TransactionInv(schema, s, a.id);
      ViewKeys(schema, tx.base, tx.rows);
      ViewOk(schema, tx.base, tx.rows);
      if tx.rows == [] {
        NothingCommitted(schema, s.latest, tx);
      }
    }
    forall t <- s'.open
      ensures TransactionInv(schema, s', t)
    {
      assert t in s.open ==> TransactionInv(schema, s, t);
    }
  }

  predicate IsRun(schema: Schema, stores: seq<Store>, actions: seq<Action>) {
    && |stores| == |actions| + 1 && stores[0] == EMPTY && OBJECT_ID in schema.columns
    && forall i :: 0 <= i < |actions| ==>
         && Ok(schema, stores[i]) && Enabled(schema, stores[i], actions[i])
         && stores[i + 1] == Next(schema, stores[i], actions[i])
  }

  lemma {:induction false} InvHolds(schema: Schema, stores: seq<Store>, actions: seq<Action>, i: nat)
    requires IsRun(schema, stores, actions) && i < |stores|
    ensures Inv(schema, stores[i])
  {
    if i > 0 {
      InvHolds(schema, stores, actions, i - 1);
      StepKeepsInv(schema, stores[i - 1], actions[i - 1]);
    }
  }

  /** An end of a transaction closes it and no other, and frees the writer's slot if it was its own; a commit logs its
      rows in order, a rollback leaves table and log alone. */
  lemma EndingDoes(schema: Schema, s: Store, a: Action)
    requires Ok(schema, s) && Enabled(schema, s, a) && (a.Commit? || a.Rollback?)
    ensures
      var s' := Next(schema, s, a);
      && s'.open == s.open - {a.id} && a.id !in s'.open
      && s'.writer == (if s.writer == Held(a.id) then Nobody else s.writer)
      && s'.log == (if a.Commit? then s.log + s.open[a.id].rows else s.log)
      && (a.Rollback? ==> s'.latest == s.latest)
  {
  }

  // ---------------------------------------------------------------- serialised writers keep the fold

  lemma {:induction false} ViewReflects(schema: Schema, base: Latest, log: seq<Row>, rows: seq<Row>)
    requires Reflects(base, log, schema.columns, schema.monotonic) && RowsOk(schema, rows)
    ensures Reflects(View(schema, base, rows), log + rows, schema.columns, schema.monotonic)
  {
    if rows == [] {
      assert log + rows == log;
    } else {
      var before, last := rows[..|rows| - 1], rows[|rows| - 1];
      ViewReflects(schema, base, log, before);
      UpsertKeepsReflecting(View(schema, base, before), log + before, last, schema.columns, schema.monotonic);
      assert log + before + [last] == log + rows;
    }
  }

  /** A transaction whose snapshot is the committed table commits exactly what its triggers computed. */
  lemma CurrentCommitsItsView(schema: Schema, latest: Latest, tx: Transaction)
    requires RowsOk(schema, tx.rows) && tx.base == latest
    ensures Committed(schema, latest, tx) == View(schema, latest, tx.rows)
  {
    ViewKeys(schema, tx.base, tx.rows);
  }

  /** No step commits rows that were computed from an outdated snapshot. */
  predicate Serialised(s: Store, a: Action) {
    a.Commit? && a.id in s.open && s.open[a.id].rows != [] ==> s.open[a.id].base == s.latest
  }

  /** With serialised writers the latest table is the fold of the committed rows in every store of every run. */
  lemma {:induction false} SerialisedWritersKeepTheFold(
    schema: Schema, stores: seq<Store>, actions: seq<Action>, i: nat)
    requires IsRun(schema, stores, actions) && i < |stores|
    requires forall n :: 0 <= n < i ==> Serialised(stores[n], actions[n])
    ensures Reflects(stores[i].latest, stores[i].log, schema.columns, schema.monotonic)
  {
    if i > 0 {
      SerialisedWritersKeepTheFold(schema, stores, actions, i - 1);
      InvHolds(schema, stores, actions, i - 1);
      var s, a := stores[i - 1], actions[i - 1];
      if a.Commit? {
        var tx := s.open[a.id];
        assert TransactionInv(schema, s, a.id);
        if tx.rows == [] {
          NothingCommitted(schema, s.latest, tx);
          assert s.log + tx.rows == s.log;
        } else {
          CurrentCommitsItsView(schema, s.latest, tx);
          ViewReflects(schema, s.latest, s.log, tx.rows);
        }
      }
    }
  }

  /** Immediate transactions are serialised, whatever deferred ones do beside them. */
  lemma ImmediateIsSerialised(schema: Schema, stores: seq<Store>, actions: seq<Action>, i: nat)
    requires IsRun(schema, stores, actions) && i < |actions|
    requires actions[i].Commit? && stores[i].open[actions[i].id].immediate
    ensures Serialised(stores[i], actions[i])
  {
    InvHolds(schema, stores, actions, i);
    assert TransactionInv(schema, stores[i], actions[i].id);
  }

  // ---------------------------------------------------------------- monotonic columns

  predicate Ranks(schema: Schema, c: string) {
    c in schema.columns && c in schema.monotonic && c != OBJECT_ID && c != CREATED_AT
  }

  /** What the value of a column loses: it becomes smaller. */
  predicate Lowered(before: Cell, after: Cell) {
    before.Value? && after.Value? && after.rank < before.rank
  }

  lemma {:induction false} ViewClimbs(schema: Schema, base: Latest, rows: seq<Row>, id: Cell, c: string)
    requires TableOk(schema, base) && RowsOk(schema, rows) && Ranks(schema, c) && id in base
    ensures id in View(schema, base, rows) && c in base[id] && c in View(schema, base, rows)[id]
    ensures !Lowered(base[id][c], View(schema, base, rows)[id][c])
    ensures base[id][c].Null? ==> View(schema, base, rows)[id][c].Null?
  {
    if rows != [] {
      var before, last := rows[..|rows| - 1], rows[|rows| - 1];
      assert last in rows;
      ViewClimbs(schema, base, before, id, c);
      ViewOk(schema, base, before);
      if last[OBJECT_ID] == id {
        UpsertIs(schema.columns, schema.monotonic, View(schema, base, before)[id], last);
      }
    }
  }

  /** The snapshot's value of the column has not fallen behind the committed one. */
  predicate UpToDate(schema: Schema, base: Latest, latest: Latest, id: Cell, c: string)
    requires TableOk(schema, base) && TableOk(schema, latest) && id in latest && Ranks(schema, c)
  {
    id in base && !Lowered(latest[id][c], base[id][c])
  }

  /** A commit lowers a monotonic column only if its snapshot has fallen behind, however much was written. */
  lemma OnlyOutdatedSnapshotsLower(schema: Schema, latest: Latest, tx: Transaction, id: Cell, c: string)
    requires TableOk(schema, tx.base) && TableOk(schema, latest) && id in latest && Ranks(schema, c)
    requires RowsOk(schema, tx.rows) && UpToDate(schema, tx.base, latest, id, c)
    ensures id in Committed(schema, latest, tx) && c in Committed(schema, latest, tx)[id]
    ensures !Lowered(latest[id][c], Committed(schema, latest, tx)[id][c])
  {
    ViewKeys(schema, tx.base, tx.rows);
    ViewClimbs(schema, tx.base, tx.rows, id, c);
  }

  /** The commit of an immediate transaction lowers no monotonic column of any object. */
  lemma ImmediateCannotLower(
    schema: Schema, stores: seq<Store>, actions: seq<Action>, i: nat, id: Cell, c: string)
    requires IsRun(schema, stores, actions) && i < |actions| && Ranks(schema, c) && id in stores[i].latest
    requires actions[i].Commit? && stores[i].open[actions[i].id].immediate
    ensures id in stores[i + 1].latest && c in stores[i].latest[id] && c in stores[i + 1].latest[id]
    ensures !Lowered(stores[i].latest[id][c], stores[i + 1].latest[id][c])
  {
    InvHolds(schema, stores, actions, i);
    var s, tx := stores[i], stores[i].open[actions[i].id];
    assert TransactionInv(schema, s, actions[i].id);
    OnlyOutdatedSnapshotsLower(schema, s.latest, tx, id, c);
  }

  /** A row of object `id` with some value in column `c`. */
  predicate RowOf(schema: Schema, row: Row, id: Cell, c: string) {
    HasColumns(row, schema.columns) && OBJECT_ID in row && row[OBJECT_ID] == id && c in row && row[c].Value?
  }

  /** A transaction with snapshot `base` may write any value over the committed one without lowering it. */
  ghost predicate Protects(schema: Schema, base: Latest, latest: Latest, id: Cell, c: string)
    requires TableOk(schema, base) && TableOk(schema, latest) && id in latest && Ranks(schema, c)
  {
    forall row, immediate | RowOf(schema, row, id, c) ::
      var after := Committed(schema, latest, Transaction(base, [row], immediate));
      id in after && c in after[id] && !Lowered(latest[id][c], after[id][c])
  }

  lemma CommittedCell(schema: Schema, base: Latest, latest: Latest, row: Row, immediate: bool, id: Cell, c: string)
    requires TableOk(schema, base) && TableOk(schema, latest) && id in latest && Ranks(schema, c)
    requires RowOf(schema, row, id, c)
    ensures
      var after := Committed(schema, latest, Transaction(base, [row], immediate));
      && id in after && c in after[id] && (id in base ==> c in base[id])
      && after[id][c] == if id in base then MaxCell(base[id][c], row[c]) else row[c]
  {
    assert [row][..0] == [] && row in [row] && Touched([row]) == {id};
    assert View(schema, base, [row]) == Upserted(base, row, schema.columns, schema.monotonic);
    if id in base {
      UpsertIs(schema.columns, schema.monotonic, base[id], row);
    }
  }

  lemma OneRowCannotLower(
    schema: Schema, base: Latest, latest: Latest, row: Row, immediate: bool, id: Cell, c: string)
    requires TableOk(schema, base) && TableOk(schema, latest) && id in latest && Ranks(schema, c)
    requires UpToDate(schema, base, latest, id, c) && RowOf(schema, row, id, c)
    ensures
      var after := Committed(schema, latest, Transaction(base, [row], immediate));
      id in after && c in after[id] && !Lowered(latest[id][c], after[id][c])
  {
    OnlyOutdatedSnapshotsLower(schema, latest, Transaction(base, [row], immediate), id, c);
  }

  lemma UpToDateProtects(schema: Schema, base: Latest, latest: Latest, id: Cell, c: string)
    requires TableOk(schema, base) && TableOk(schema, latest) && id in latest && Ranks(schema, c)
    requires UpToDate(schema, base, latest, id, c)
    ensures Protects(schema, base, latest, id, c)
  {
    forall row, immediate | RowOf(schema, row, id, c) {
      OneRowCannotLower(schema, base, latest, row, immediate, id, c);
    }
  }

  /** A snapshot protects a monotonic column against every stale row if and only if it has not fallen behind:
      then the trigger's MAX has the larger value to compare with. */
  lemma SnapshotProtectsExactlyWhen(schema: Schema, base: Latest, latest: Latest, id: Cell, c: string)
    requires TableOk(schema, base) && TableOk(schema, latest) && id in latest && Ranks(schema, c)
    requires latest[id][c].Value?
    ensures Protects(schema, base, latest, id, c) <==> UpToDate(schema, base, latest, id, c)
  {
    if UpToDate(schema, base, latest, id, c) {
      UpToDateProtects(schema, base, latest, id, c);
    } else {
      var stale := latest[id][c := Value(latest[id][c].rank - 1)][OBJECT_ID := id];
      CommittedCell(schema, base, latest, stale, false, id, c);
      assert RowOf(schema, stale, id, c);
    }
  }

  // ---------------------------------------------------------------- a deferred writer revives a deleted object

  const FLAG := "is_deleted"

  const FLAGS := Schema([OBJECT_ID, CREATED_AT, FLAG], {FLAG})

  const ID := Value(7)

  function Flagged(flag: int): Row {
    map[OBJECT_ID := ID, CREATED_AT := Value(0), FLAG := Value(flag)]
  }

  function Table(flag: int): Latest {
    map[ID := Flagged(flag)]
  }

  lemma FlaggedIs(flag: int)
    ensures RowsOk(FLAGS, [Flagged(flag)]) && HasColumns(Flagged(flag), FLAGS.columns)
    ensures FLAGS.columns[0] == OBJECT_ID && FLAGS.columns[1] == CREATED_AT && FLAGS.columns[2] == FLAG
  {
    assert FLAGS.columns[0] == OBJECT_ID && FLAGS.columns[1] == CREATED_AT && FLAGS.columns[2] == FLAG;
  }

  lemma UpsertedFlag(before: int, flag: int)
    ensures Assigned(PartsFor(FLAGS.columns, FLAGS.monotonic), Flagged(before), Flagged(flag)) ==
      Flagged(if before >= flag then before else flag)
  {
    FlaggedIs(before);
    FlaggedIs(flag);
    UpsertIs(FLAGS.columns, FLAGS.monotonic, Flagged(before), Flagged(flag));
    FlaggedIs(if before >= flag then before else flag);
  }

  lemma ViewOfOne(base: Latest, flag: int)
    ensures RowsOk(FLAGS, [Flagged(flag)])
    ensures View(FLAGS, base, [Flagged(flag)]) == Upserted(base, Flagged(flag), FLAGS.columns, FLAGS.monotonic)
    ensures Touched([Flagged(flag)]) == {ID}
  {
    FlaggedIs(flag);
    assert [Flagged(flag)][..0] == [] && Flagged(flag) in [Flagged(flag)];
  }

  lemma FlagCommitted(latest: Latest, base: Latest, before: int, flag: int, immediate: bool)
    requires latest.Keys <= {ID} && ((base == map[] && before == flag) || base == Table(before))
    ensures RowsOk(FLAGS, [Flagged(flag)])
    ensures Committed(FLAGS, latest, Transaction(base, [Flagged(flag)], immediate)) ==
      Table(if before >= flag then before else flag)
  {
    ViewOfOne(base, flag);
    UpsertedFlag(before, flag);
  }

  datatype Script = Script(stores: seq<Store>, actions: seq<Action>) {
    ghost predicate Reaches(s: Store) {
      IsRun(FLAGS, stores, actions) && stores[|actions|] == s && Ok(FLAGS, s)
    }
  }

  lemma Do(h: Script, s: Store, a: Action, s': Store) returns (h': Script)
    requires h.Reaches(s) && Enabled(FLAGS, s, a) && Ok(FLAGS, s')
    requires var next := Next(FLAGS, s, a);
      next.latest == s'.latest && next.log == s'.log && next.writer == s'.writer && next.open == s'.open
    ensures h'.Reaches(s') && h'.stores == h.stores + [s'] && h'.actions == h.actions + [a]
  {
    h' := Script(h.stores + [s'], h.actions + [a]);
  }

  /** A transaction that has written nothing writes its one row. */
  lemma Wrote(h: Script, s: Store, t: nat, flag: int, s': Store) returns (h': Script)
    requires h.Reaches(s) && t in s.open && s.open[t].rows == [] && s.writer in {Nobody, Held(t)}
    requires s'.latest == s.latest && s'.log == s.log && s'.writer == Held(t)
    requires s'.open == s.open[t := s.open[t].(rows := [Flagged(flag)])]
    ensures h'.Reaches(s') && h'.stores == h.stores + [s'] && h'.actions == h.actions + [Write(t, Flagged(flag))]
  {
    FlaggedIs(flag);
    assert [] + [Flagged(flag)] == [Flagged(flag)];
    h' := Do(h, s, Write(t, Flagged(flag)), s');
  }

  const NEW_ROW := Flagged(0)

  const LATE := Transaction(Table(0), [], false)

  /** The object is created, and a deferred transaction takes its snapshot. */
  lemma Created() returns (h: Script)
    ensures h.Reaches(Store(Table(0), [NEW_ROW], Nobody, map[1 := LATE]))
  {
    FlaggedIs(0);
    h := Script([EMPTY], []);
    var s := Store(map[], [], Held(0), map[0 := Transaction(map[], [], true)]);
    h := Do(h, EMPTY, Begin(0, true), s);
    var s1 := s.(open := map[0 := Transaction(map[], [NEW_ROW], true)]);
    h := Wrote(h, s, 0, 0, s1);
    FlagCommitted(map[], map[], 0, 0, true);
    var s2 := Store(Table(0), [NEW_ROW], Nobody, map[]);
    h := Do(h, s1, Commit(0), s2);
    h := Do(h, s2, Begin(1, false), s2.(open := map[1 := LATE]));
  }

  /** An immediate transaction deletes the object. */
  lemma Deleted() returns (h: Script)
    ensures h.Reaches(Store(Table(1), [NEW_ROW, Flagged(1)], Nobody, map[1 := LATE]))
  {
    FlaggedIs(1);
    h := Created();
    var s := Store(Table(0), [NEW_ROW], Nobody, map[1 := LATE]);
    var s1 := s.(open := map[1 := LATE, 2 := Transaction(Table(0), [], true)], writer := Held(2));
    h := Do(h, s, Begin(2, true), s1);
    var s2 := s1.(open := map[1 := LATE, 2 := Transaction(Table(0), [Flagged(1)], true)]);
    h := Wrote(h, s1, 2, 1, s2);
    FlagCommitted(Table(0), Table(0), 0, 1, true);
    h := Do(h, s2, Commit(2), Store(Table(1), [NEW_ROW, Flagged(1)], Nobody, map[1 := LATE]));
  }

  /** The promise that a stale transaction cannot take a deletion back does not hold of deferred writers: here the
      flag goes up with the deletion and down again with a row that was read before. */
  lemma DeferredWriterCanLower() returns (stores: seq<Store>, actions: seq<Action>, i: nat)
    ensures IsRun(FLAGS, stores, actions) && i < |actions| && Ranks(FLAGS, FLAG)
    ensures actions[i].Commit? && actions[i].id in stores[i].open && !stores[i].open[actions[i].id].immediate
    ensures ID in stores[i].latest && FLAG in stores[i].latest[ID]
    ensures ID in stores[i + 1].latest && FLAG in stores[i + 1].latest[ID]
    ensures Lowered(stores[i].latest[ID][FLAG], stores[i + 1].latest[ID][FLAG])
  {
    FlaggedIs(0);
    var h := Deleted();
    var log := [NEW_ROW, Flagged(1)];
    var s := Store(Table(1), log, Held(1), map[1 := Transaction(Table(0), [NEW_ROW], false)]);
    h := Wrote(h, Store(Table(1), log, Nobody, map[1 := LATE]), 1, 0, s);
    i := |h.actions|;
    FlagCommitted(Table(1), Table(0), 0, 0, false);
    h := Do(h, s, Commit(1), Store(Table(0), log + [NEW_ROW], Nobody, map[]));
    stores, actions := h.stores, h.actions;
  }
}
