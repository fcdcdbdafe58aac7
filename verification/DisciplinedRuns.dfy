/** Runs in which every rollback is disciplined: undo lists stay exact, and the live tables agree with
    the log, so that recovery rebuilds the committed part of every live table. */
module DisciplinedRuns {
  import opened Wrappers
  import opened Storage
  import opened Planner
  import opened Transactions
  import opened Sequences
  import opened Meaning
  import opened Handler
  import opened Recovery
  import opened Server
  import opened Lifecycle
  import opened WriteAhead
  import opened Durability
  import opened RollbackDiscipline

  ghost predicate DisciplinedStatement(db: Db, session: Session, stmt: Statement) {
    stmt == Rollback && session.current.Some? ==> Disciplined(db, session.current.value)
  }

  ghost predicate DisciplinedStep(w: World, step: Step) {
    !step.Crash? && (step.Run? ==> DisciplinedStatement(w.db, w.SessionOf(step.sid), step.stmt))
  }

  /** No crash, and each rollback is disciplined in the state it runs in. */
  ghost predicate DisciplinedRun(w: World, steps: seq<Step>) {
    forall i | 0 <= i < |steps| :: DisciplinedStep(Play(w, steps[..i]), steps[i])
  }

  lemma DisciplinedPrefix(w: World, steps: seq<Step>, n: nat)
    requires DisciplinedRun(w, steps) && n <= |steps|
    ensures DisciplinedRun(w, steps[..n]) && NoCrash(steps)
  {
    hide Play;
    forall i | 0 <= i < n ensures DisciplinedStep(Play(w, steps[..n][..i]), steps[..n][i]) {
      assert steps[..n][..i] == steps[..i];
    }
    forall i | 0 <= i < |steps| ensures !steps[i].Crash? {
      assert DisciplinedStep(Play(w, steps[..i]), steps[i]);
    }
  }

  // Undo lists stay exact.

  lemma {:induction false} NoOwnRows(rows: seq<Tuple>, tx: TxState, id: nat)
    requires RowsIssued(rows, tx) && id !in tx.vis.statuses
    ensures OwnPositions(rows, id) == []
  {
    if rows != [] {
      NoOwnRows(rows[..|rows| - 1], tx, id);
      assert rows[|rows| - 1].txId != Some(id);
    }
  }

  lemma BegunKeepsExact(db: Db)
    requires TxOk(db.tx) && TablesIssued(db.tables, db.tx) && UndoExact(db)
    ensures UndoExact(db.(tx := db.tx.Begun()))
  {
    var after := db.(tx := db.tx.Begun());
    forall id: nat | IsActive(after.tx, id) ensures SegmentExact(after, id) {
      if id == db.tx.nextTxId {
        forall t ensures Segment(after.tx.UndoOf(id), t) == OwnPositions(RowsIn(after.tables, t), id) {
          NoOwnRows(RowsIn(db.tables, t), db.tx, id);
        }
      } else {
        assert SegmentExact(db, id);
      }
    }
  }

  lemma CommitKeepsExact(db: Db, id: nat)
    requires UndoExact(db)
    ensures UndoExact(db.(tx := db.tx.CommitDone(id)))
  {
    var after := db.(tx := db.tx.CommitDone(id));
    forall other: nat | IsActive(after.tx, other) ensures SegmentExact(after, other) {
      assert SegmentExact(db, other);
    }
  }

  lemma SegmentAppend(recs: seq<UndoRecord>, rec: UndoRecord, t: string)
    ensures Segment(recs + [rec], t) == if rec.table == t then Segment(recs, t) + [rec.rowIdx] else Segment(recs, t)
  {
    assert (recs + [rec])[..|recs|] == recs;
  }

  lemma InsertRowKeepsExact(db: Db, name: string, tx: Option<nat>, values: seq<Value>)
    requires UndoExact(db) && name in db.tables
    ensures UndoExact(InsertRow(db, name, tx, values))
  {
    hide Segment, OwnPositions;
    var after := InsertRow(db, name, tx, values);
    var rows := db.tables[name];
    var row := Tuple(values, tx, db.tx.scn);
    forall id: nat | IsActive(after.tx, id) ensures SegmentExact(after, id) {
      assert SegmentExact(db, id);
      forall t ensures Segment(after.tx.UndoOf(id), t) == OwnPositions(RowsIn(after.tables, t), id) {
        OwnAppend(rows, row, id);
        SegmentAppend(db.tx.UndoOf(id), UndoInsert(name, |rows|), t);
        assert Segment(db.tx.UndoOf(id), t) == OwnPositions(RowsIn(db.tables, t), id);
      }
    }
  }

  lemma {:induction false} InsertRowsKeepExact(db: Db, name: string, width: nat, tx: Option<nat>, rows: seq<seq<Expr>>, count: nat)
    requires UndoExact(db) && name in db.tables
    ensures UndoExact(InsertRows(db, name, width, tx, rows, count).0)
    decreases |rows|
  {
    hide RowValues, UndoExact;
    if rows != [] && RowValues(rows[0], width).Ok? {
      InsertRowKeepsExact(db, name, tx, RowValues(rows[0], width).value);
      InsertRowsKeepExact(InsertRow(db, name, tx, RowValues(rows[0], width).value), name, width, tx, rows[1..], count + 1);
    }
  }

  lemma SameRowsExact(a: Db, b: Db)
    requires UndoExact(a) && b.tx == a.tx && forall t :: RowsIn(b.tables, t) == RowsIn(a.tables, t)
    ensures UndoExact(b)
  {
    hide Segment, OwnPositions;
    forall id: nat | IsActive(b.tx, id) ensures SegmentExact(b, id) {
      assert SegmentExact(a, id);
    }
  }

  lemma StatementKeepsExact(db: Db, session: Session, stmt: Statement, order: HashOrder)
    requires TxOk(db.tx) && TablesIssued(db.tables, db.tx) && UndoExact(db)
    requires session.current.Some? ==> IsActive(db.tx, session.current.value)
    requires DisciplinedStatement(db, session, stmt)
    ensures UndoExact(Execute(db, session, stmt, order).db)
  {
    hide QueryResult, UndoExact, InsertRows, RolledBackDb, Disciplined, Lower, TxOk, TablesIssued;
    match stmt
    case Begin => BegunKeepsExact(db);
    case Commit =>
      if session.current.Some? {
        CommitKeepsExact(db, session.current.value);
      }
    case Rollback =>
      if session.current.Some? {
        RollbackKeepsOthersExactIff(db, session.current.value);
      }
    case CreateTable(name, schema) =>
      SameRowsExact(db, Execute(db, session, stmt, order).db);
    case InsertInto(name, rows) =>
      var t := Lower(name);
      if t in db.catalog && t in db.tables {
        InsertRowsKeepExact(db, t, |db.catalog[t].columns|, session.current, rows, 0);
      }
    case Query(_) =>
  }

  // Live tables agree with the trail of records.

  predicate Alive(tx: TxState, row: Tuple) {
    row.txId.Some? && !(row.txId.value in tx.vis.statuses && tx.vis.statuses[row.txId.value] == RolledBack)
  }

  function TxRows(rows: seq<Tuple>): seq<Tuple> {
    Select(rows, (row: Tuple) => row.txId.Some?)
  }

  function AliveRows(tx: TxState, recs: seq<RedoRecord>, t: string): seq<Tuple> {
    Select(LoggedRows(recs, t), (row: Tuple) => Alive(tx, row))
  }

  /** The transactional rows of each table are the logged rows of transactions not rolled back. */
  ghost predicate LiveOk(db: Db) {
    forall t :: TxRows(RowsIn(db.tables, t)) == AliveRows(db.tx, Trail(db.tx), t)
  }

  lemma LoggedRowsAppend(recs: seq<RedoRecord>, rec: RedoRecord, t: string)
    ensures LoggedRows(recs + [rec], t) ==
            if rec.RedoInsert? && rec.table == t then LoggedRows(recs, t) + [Tuple(rec.values, Some(rec.txId), rec.scn)]
            else LoggedRows(recs, t)
  {
    assert (recs + [rec])[..|recs|] == recs;
  }

  lemma LoggedRowsIssued(recs: seq<RedoRecord>, tx: TxState, t: string)
    requires Shaped(recs, tx)
    ensures RowsIssued(LoggedRows(recs, t), tx)
  {
    hide LoggedRows;
    LoggedRowsOwners(recs, t);
    var rows := LoggedRows(recs, t);
    forall i | 0 <= i < |rows| ensures rows[i].txId.Some? && rows[i].txId.value in tx.vis.statuses {
      assert InsertedBy(recs, rows[i]);
    }
  }

  /** Changing the status of one transaction matters only to its own rows. */
  lemma SameAlive(a: TxState, b: TxState, recs: seq<RedoRecord>, t: string)
    requires Shaped(recs, a)
    requires forall id | id in a.vis.statuses ::
               id in b.vis.statuses && (a.vis.statuses[id] == RolledBack <==> b.vis.statuses[id] == RolledBack)
    ensures AliveRows(a, recs, t) == AliveRows(b, recs, t)
  {
    LoggedRowsIssued(recs, a, t);
    SelectAgree(LoggedRows(recs, t), (row: Tuple) => Alive(a, row), (row: Tuple) => Alive(b, row));
  }

  lemma BegunKeepsLive(db: Db)
    requires TxOk(db.tx) && WalOk(db.tx) && LiveOk(db)
    ensures LiveOk(db.(tx := db.tx.Begun()))
  {
    hide LoggedRows, Shaped, AliveRows;
    var after := db.tx.Begun();
    BegunLogs(db.tx);
    forall t ensures TxRows(RowsIn(db.tables, t)) == AliveRows(after, Trail(after), t) {
      SameAlive(db.tx, after, Trail(db.tx), t);
      SameLogged(after, Trail(db.tx), RedoBegin(db.tx.nextTxId, db.tx.scn), t);
    }
  }

  lemma SameLogged(tx: TxState, recs: seq<RedoRecord>, rec: RedoRecord, t: string)
    requires !rec.RedoInsert?
    ensures AliveRows(tx, recs + [rec], t) == AliveRows(tx, recs, t)
  {
    LoggedRowsAppend(recs, rec, t);
  }

  lemma CommitKeepsLive(db: Db, id: nat)
    requires WalOk(db.tx) && LiveOk(db) && IsActive(db.tx, id)
    ensures LiveOk(db.(tx := db.tx.CommitDone(id)))
  {
    hide LoggedRows, Shaped, AliveRows;
    var after := db.tx.CommitDone(id);
    CommitLogs(db.tx, id);
    forall t ensures TxRows(RowsIn(db.tables, t)) == AliveRows(after, Trail(after), t) {
      SameAlive(db.tx, after, Trail(db.tx), t);
      SameLogged(after, Trail(db.tx), RedoCommit(id, db.tx.scn + 1), t);
    }
  }

  lemma InsertRowKeepsLive(db: Db, name: string, tx: Option<nat>, values: seq<Value>)
    requires WalOk(db.tx) && LiveOk(db) && name in db.tables
    requires tx.Some? ==> IsActive(db.tx, tx.value)
    ensures WalOk(InsertRow(db, name, tx, values).tx) && LiveOk(InsertRow(db, name, tx, values))
  {
    hide LoggedRows, Shaped, Trail, WalOk, Select;
    var after := InsertRow(db, name, tx, values);
    var rows, row := db.tables[name], Tuple(values, tx, db.tx.scn);
    SelectAppend(rows, row, (r: Tuple) => r.txId.Some?);
    forall t ensures TxRows(RowsIn(after.tables, t)) == AliveRows(after.tx, Trail(after.tx), t) {
      assert TxRows(RowsIn(db.tables, t)) == AliveRows(db.tx, Trail(db.tx), t);
      if tx.Some? {
        InsertLogs(db.tx, tx.value, name, values, |rows|);
        var logged := LoggedRows(Trail(db.tx), t);
        LoggedRowsAppend(Trail(db.tx), RedoInsert(tx.value, db.tx.scn, name, values, |rows|), t);
        SelectAppend(logged, row, (r: Tuple) => Alive(after.tx, r));
        SelectAgree(logged, (r: Tuple) => Alive(db.tx, r), (r: Tuple) => Alive(after.tx, r));
      }
    }
    if tx.Some? {
      InsertLogs(db.tx, tx.value, name, values, |rows|);
    }
  }

  lemma {:induction false} InsertRowsKeepLive(db: Db, name: string, width: nat, tx: Option<nat>, rows: seq<seq<Expr>>, count: nat)
    requires WalOk(db.tx) && LiveOk(db) && name in db.tables
    requires tx.Some? ==> IsActive(db.tx, tx.value)
    ensures LiveOk(InsertRows(db, name, width, tx, rows, count).0)
    decreases |rows|
  {
    hide RowValues, LiveOk, WalOk;
    if rows != [] && RowValues(rows[0], width).Ok? {
      InsertRowKeepsLive(db, name, tx, RowValues(rows[0], width).value);
      InsertRowsKeepLive(InsertRow(db, name, tx, RowValues(rows[0], width).value), name, width, tx, rows[1..], count + 1);
    }
  }

  lemma RollbackKeepsLive(db: Db, id: nat)
    requires WalOk(db.tx) && LiveOk(db) && IsActive(db.tx, id) && SegmentExact(db, id)
    ensures LiveOk(RolledBackDb(db, id))
  {
    hide LoggedRows, Shaped, Trail, WalOk, Select, UndoAll;
    var after := RolledBackDb(db, id);
    RollbackLogs(db.tx, id);
    forall t ensures TxRows(RowsIn(after.tables, t)) == AliveRows(after.tx, Trail(after.tx), t) {
      var rows, logged := RowsIn(db.tables, t), LoggedRows(Trail(db.tx), t);
      RollbackIsExact(db, id, t);
      SameLogged(after.tx, Trail(db.tx), RedoRollback(id, db.tx.scn), t);
      var other := (row: Tuple) => row.txId != Some(id);
      var both := (row: Tuple) => row.txId.Some? && row.txId != Some(id);
      SelectTwice(rows, other, (row: Tuple) => row.txId.Some?, both);
      SelectTwice(rows, (row: Tuple) => row.txId.Some?, other, both);
      assert TxRows(rows) == AliveRows(db.tx, Trail(db.tx), t);
      SelectTwice(logged, (row: Tuple) => Alive(db.tx, row), other, (row: Tuple) => Alive(after.tx, row));
    }
  }

  lemma SameRowsLive(a: Db, b: Db)
    requires LiveOk(a) && b.tx == a.tx && forall t :: RowsIn(b.tables, t) == RowsIn(a.tables, t)
    ensures LiveOk(b)
  {
    hide LoggedRows, Select;
    forall t ensures TxRows(RowsIn(b.tables, t)) == AliveRows(b.tx, Trail(b.tx), t) {
      assert TxRows(RowsIn(a.tables, t)) == AliveRows(a.tx, Trail(a.tx), t);
    }
  }

  lemma StatementKeepsLive(db: Db, session: Session, stmt: Statement, order: HashOrder)
    requires TxOk(db.tx) && WalOk(db.tx) && UndoExact(db) && LiveOk(db)
    requires session.current.Some? ==> IsActive(db.tx, session.current.value)
    ensures LiveOk(Execute(db, session, stmt, order).db)
  {
    hide QueryResult, LiveOk, InsertRows, RolledBackDb, Lower, TxOk, WalOk, SegmentExact;
    match stmt
    case Begin => BegunKeepsLive(db);
    case Commit =>
      if session.current.Some? {
        CommitKeepsLive(db, session.current.value);
      }
    case Rollback =>
      if session.current.Some? {
        RollbackKeepsLive(db, session.current.value);
      }
    case CreateTable(name, schema) =>
      SameRowsLive(db, Execute(db, session, stmt, order).db);
    case InsertInto(name, rows) =>
      var t := Lower(name);
      if t in db.catalog && t in db.tables {
        InsertRowsKeepLive(db, t, |db.catalog[t].columns|, session.current, rows, 0);
      }
    case Query(_) =>
  }

  // Whole runs.

  ghost predicate Consistent(w: World) {
    Inv(w) && WalOk(w.db.tx) && UndoExact(w.db) && LiveOk(w.db)
  }

  lemma FreshIsConsistent()
    ensures Consistent(Fresh())
  {
    FreshIsOk();
    FreshWal();
    var db := Fresh().db;
    forall t ensures TxRows(RowsIn(db.tables, t)) == AliveRows(db.tx, Trail(db.tx), t) {
      NothingLogged(t);
    }
  }

  lemma DisciplinedStepKeeps(w: World, step: Step)
    requires Consistent(w) && DisciplinedStep(w, step)
    ensures Consistent(Next(w, step))
  {
    hide Execute, Inv, WalOk, UndoExact, LiveOk, DisciplinedStatement;
    StepKeeps(w, step);
    if step.Run? {
      SessionIsActive(w, step.sid);
      StatementLogs(w.db, w.SessionOf(step.sid), step.stmt, step.order);
      IssuedTables(w);
      StatementKeepsExact(w.db, w.SessionOf(step.sid), step.stmt, step.order);
      StatementKeepsLive(w.db, w.SessionOf(step.sid), step.stmt, step.order);
    }
  }

  lemma IssuedTables(w: World)
    requires Inv(w)
    ensures TablesIssued(w.db.tables, w.db.tx)
  {
  }

  /** In every disciplined run the undo list of each active transaction is, per table, the increasing
      list of positions of its own rows, and the live tables agree with log and buffer. */
  lemma {:induction false} DisciplinedRunKeeps(w: World, steps: seq<Step>)
    requires Consistent(w) && DisciplinedRun(w, steps)
    ensures Consistent(Play(w, steps))
    decreases |steps|
  {
    hide Consistent, DisciplinedStep, Next;
    if steps != [] {
      var n := |steps| - 1;
      DisciplinedPrefix(w, steps, n);
      DisciplinedRunKeeps(w, steps[..n]);
      assert DisciplinedStep(Play(w, steps[..n]), steps[n]);
      DisciplinedStepKeeps(Play(w, steps[..n]), steps[n]);
    }
  }

  /** ROLLBACK in a disciplined run removes exactly the rows of its transaction, in every table. */
  lemma RollbackRemovesOwnRows(steps: seq<Step>, sid: nat, order: HashOrder, t: string)
    requires DisciplinedRun(Fresh(), steps)
    requires Play(Fresh(), steps).SessionOf(sid).current.Some?
    ensures var w := Play(Fresh(), steps);
            RowsIn(Next(w, Run(sid, Rollback, order)).db.tables, t) ==
            Without(RowsIn(w.db.tables, t), w.SessionOf(sid).current.value)
  {
    hide RolledBackDb, Without, WalOk, LiveOk, SegmentExact, Inv;
    FreshIsConsistent();
    DisciplinedRunKeeps(Fresh(), steps);
    var w := Play(Fresh(), steps);
    SessionIsActive(w, sid);
    RollbackIsExact(w.db, w.SessionOf(sid).current.value, t);
  }

  predicate CommittedNow(tx: TxState, row: Tuple) {
    row.txId.Some? && row.txId.value in tx.vis.statuses && tx.vis.statuses[row.txId.value] == Committed
  }

  /** Live and recovered tables agree: crash after any disciplined run, and each recovered table is the
      committed part of the live one, row order, values and stamps included. */
  lemma RecoveredIsCommittedPartOfLive(steps: seq<Step>, t: string)
    requires DisciplinedRun(Fresh(), steps)
    ensures var w := Play(Fresh(), steps);
            RowsIn(Next(w, Crash).db.tables, t) ==
            Select(RowsIn(w.db.tables, t), (row: Tuple) => CommittedNow(w.db.tx, row))
  {
    hide LoggedRows, Select, History, Booted, Inv, UndoExact, Shaped, CommitsIn;
    FreshIsConsistent();
    DisciplinedRunKeeps(Fresh(), steps);
    var w := Play(Fresh(), steps);
    var tx, rows, logged := w.db.tx, RowsIn(w.db.tables, t), LoggedRows(Trail(w.db.tx), t);
    var committed := (row: Tuple) => CommittedNow(tx, row);
    RecoversCommitted(tx, t);
    forall i | 0 <= i < |logged| ensures CommittedRow(Trail(tx), logged[i]) == committed(logged[i]) {
      if logged[i].txId.Some? {
        StatusFromShape(Trail(tx), tx, logged[i].txId.value);
      }
    }
    SelectAgree(logged, (row: Tuple) => CommittedRow(Trail(tx), row), committed);
    SelectTwice(logged, (row: Tuple) => Alive(tx, row), committed, committed);
    SelectTwice(rows, (row: Tuple) => row.txId.Some?, committed, committed);
    assert TxRows(rows) == AliveRows(tx, Trail(tx), t);
  }
}
