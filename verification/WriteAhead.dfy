/** The write-ahead log: what each statement must log, and where its records are. */
module WriteAhead {
  import opened Wrappers
  import opened Storage
  import opened Planner
  import opened Transactions
  import opened Sequences
  import opened Meaning
  import opened Handler
  import opened Recovery
  import opened Server
  import opened Lifecycle

  // What a statement must log, read off the statement and the state before it.

  /** The rows of an INSERT before the first one that is rejected. */
  function Accepted(rows: seq<seq<Expr>>, width: nat): seq<seq<Value>> {
    if rows == [] then []
    else
      match RowValues(rows[0], width)
      case Err(_) => []
      case Ok(values) => [values] + Accepted(rows[1..], width)
  }

  function InsertRecords(tx: nat, scn: nat, table: string, values: seq<seq<Value>>, firstIdx: nat): seq<RedoRecord> {
    if values == [] then []
    else [RedoInsert(tx, scn, table, values[0], firstIdx)] + InsertRecords(tx, scn, table, values[1..], firstIdx + 1)
  }

  function Logs(db: Db, session: Session, stmt: Statement): seq<RedoRecord> {
    match stmt
    case Begin => if session.current.None? then [RedoBegin(db.tx.nextTxId, db.tx.scn)] else []
    case Commit => if session.current.Some? then [RedoCommit(session.current.value, db.tx.scn + 1)] else []
    case Rollback => if session.current.Some? then [RedoRollback(session.current.value, db.tx.scn)] else []
    case InsertInto(name, rows) =>
      var t := Lower(name);
      if session.current.Some? && t in db.catalog && t in db.tables then
        InsertRecords(session.current.value, db.tx.scn, t, Accepted(rows, |db.catalog[t].columns|), |db.tables[t]|)
      else []
    case _ => []
  }

  /** The records of a whole run. */
  function History(w: World, steps: seq<Step>): seq<RedoRecord> {
    if steps == [] then []
    else
      var before := Play(w, steps[..|steps| - 1]);
      var last := steps[|steps| - 1];
      History(w, steps[..|steps| - 1]) +
      if last.Run? then Logs(before.db, before.SessionOf(last.sid), last.stmt) else []
  }

  /** Log on disk, then buffer. */
  function Trail(tx: TxState): seq<RedoRecord> {
    tx.log + tx.buffer
  }

  function Tuples(values: seq<seq<Value>>, tx: Option<nat>, scn: nat): (rows: seq<Tuple>)
    ensures |rows| == |values| && forall i | 0 <= i < |values| :: rows[i] == Tuple(values[i], tx, scn)
  {
    seq(|values|, i requires 0 <= i < |values| => Tuple(values[i], tx, scn))
  }

  lemma TuplesCons(before: seq<Tuple>, values: seq<seq<Value>>, tx: Option<nat>, scn: nat)
    ensures values == [] ==> before + Tuples(values, tx, scn) == before
    ensures values != [] ==>
              before + Tuples(values, tx, scn) == (before + [Tuple(values[0], tx, scn)]) + Tuples(values[1..], tx, scn)
  {
  }

  /** A multi-row INSERT keeps exactly the rows before the first rejected one, at the end of its table,
      and fails exactly when a row was rejected. */
  lemma {:induction false} InsertKeepsAcceptedRows(db: Db, name: string, width: nat, tx: Option<nat>, rows: seq<seq<Expr>>, count: nat)
    requires name in db.tables
    ensures var (after, r) := InsertRows(db, name, width, tx, rows, count);
            && after.tables == db.tables[name := db.tables[name] + Tuples(Accepted(rows, width), tx, db.tx.scn)]
            && (r.Ok? <==> |Accepted(rows, width)| == |rows|)
            && (r.Ok? ==> r.value == count + |rows|)
    decreases |rows|
  {
    hide RowValues, Tuples;
    var acc := Accepted(rows, width);
    TuplesCons(db.tables[name], acc, tx, db.tx.scn);
    if rows != [] && RowValues(rows[0], width).Ok? {
      var mid := InsertRow(db, name, tx, RowValues(rows[0], width).value);
      InsertKeepsAcceptedRows(mid, name, width, tx, rows[1..], count + 1);
      assert acc[1..] == Accepted(rows[1..], width);
    }
  }

  /** A statement that fails leaves database and transaction as they were, but for the rows an INSERT
      accepted before the one it rejected; and no statement but INSERT and ROLLBACK touches stored rows. */
  lemma FailureLeavesAcceptedRows(db: Db, session: Session, stmt: Statement, order: HashOrder)
    ensures var e := Execute(db, session, stmt, order);
            && (e.response.Err? ==> e.session.current == session.current)
            && (e.response.Err? && !stmt.InsertInto? ==> e.db == db)
            && (e.response.Err? && stmt.InsertInto? && e.db.tables != db.tables ==>
                  var t := Lower(stmt.name);
                  t in db.catalog && t in db.tables &&
                  var accepted := Accepted(stmt.rows, |db.catalog[t].columns|);
                  |accepted| < |stmt.rows| &&
                  e.db.tables == db.tables[t := db.tables[t] + Tuples(accepted, session.current, db.tx.scn)])
            && (!stmt.InsertInto? && !stmt.Rollback? ==>
                  forall t | t in db.tables :: t in e.db.tables && e.db.tables[t] == db.tables[t])
  {
    hide QueryResult, UndoAll, InsertRows, Lower, Accepted, Tuples;
    if stmt.InsertInto? {
      var t := Lower(stmt.name);
      if t in db.catalog && t in db.tables {
        InsertKeepsAcceptedRows(db, t, |db.catalog[t].columns|, session.current, stmt.rows, 0);
        AcceptedAtMost(stmt.rows, |db.catalog[t].columns|);
      }
    }
  }

  lemma {:induction false} AcceptedAtMost(rows: seq<seq<Expr>>, width: nat)
    ensures |Accepted(rows, width)| <= |rows|
  {
    if rows != [] {
      AcceptedAtMost(rows[1..], width);
    }
  }

  // The invariant.

  function OfTx(recs: seq<RedoRecord>, id: nat): seq<RedoRecord> {
    Select(recs, (rec: RedoRecord) => rec.txId == id)
  }

  predicate Terminal(rec: RedoRecord) {
    rec.RedoCommit? || rec.RedoRollback?
  }

  predicate AllInserts(recs: seq<RedoRecord>) {
    forall i | 0 <= i < |recs| :: recs[i].RedoInsert?
  }

  /** One Begin, then Inserts, then one terminal record if the transaction is over. */
  predicate Shape(recs: seq<RedoRecord>, status: TxStatus) {
    && |recs| >= 1 && recs[0].RedoBegin?
    && match status
       case Active => AllInserts(recs[1..])
       case Committed => |recs| >= 2 && recs[|recs| - 1].RedoCommit? && AllInserts(recs[1..|recs| - 1])
       case RolledBack => |recs| >= 2 && recs[|recs| - 1].RedoRollback? && AllInserts(recs[1..|recs| - 1])
  }

  ghost predicate Shaped(recs: seq<RedoRecord>, tx: TxState) {
    && (forall id | id in tx.vis.statuses :: Shape(OfTx(recs, id), tx.vis.statuses[id]))
    && (forall i | 0 <= i < |recs| :: recs[i].txId in tx.vis.statuses)
  }

  /** Only active transactions have records in the buffer, and no terminal ones. */
  ghost predicate BufferActive(buffer: seq<RedoRecord>, tx: TxState) {
    forall i | 0 <= i < |buffer| :: !Terminal(buffer[i]) && IsActive(tx, buffer[i].txId)
  }

  predicate EndsTerminal(log: seq<RedoRecord>) {
    log == [] || Terminal(log[|log| - 1])
  }

  ghost predicate WalOk(tx: TxState) {
    Shaped(Trail(tx), tx) && BufferActive(tx.buffer, tx) && EndsTerminal(tx.log)
  }

  // Appending one record.

  lemma OfTxAppend(recs: seq<RedoRecord>, rec: RedoRecord, id: nat)
    ensures OfTx(recs + [rec], id) == if rec.txId == id then OfTx(recs, id) + [rec] else OfTx(recs, id)
  {
    SelectAppend(recs, rec, (r: RedoRecord) => r.txId == id);
  }

  lemma NoneOfTx(recs: seq<RedoRecord>, id: nat)
    requires forall i | 0 <= i < |recs| :: recs[i].txId != id
    ensures OfTx(recs, id) == []
  {
    SelectNone(recs, (r: RedoRecord) => r.txId == id);
  }

  lemma ShapeGrows(recs: seq<RedoRecord>, rec: RedoRecord)
    requires Shape(recs, Active)
    ensures rec.RedoInsert? ==> Shape(recs + [rec], Active)
    ensures rec.RedoCommit? ==> Shape(recs + [rec], Committed)
    ensures rec.RedoRollback? ==> Shape(recs + [rec], RolledBack)
  {
    var all := recs + [rec];
    assert all[1..|all| - 1] == recs[1..];
    assert all[1..] == recs[1..] + [rec];
  }

  /** The statuses after a record is written. */
  function StatusAfter(rec: RedoRecord): TxStatus {
    match rec
    case RedoBegin(_, _) => Active
    case RedoInsert(_, _, _, _, _) => Active
    case RedoCommit(_, _) => Committed
    case RedoRollback(_, _) => RolledBack
  }

  lemma ShapedAppend(recs: seq<RedoRecord>, rec: RedoRecord, a: TxState, b: TxState)
    requires Shaped(recs, a)
    requires if rec.RedoBegin? then rec.txId !in a.vis.statuses else IsActive(a, rec.txId)
    requires b.vis.statuses == a.vis.statuses[rec.txId := StatusAfter(rec)]
    ensures Shaped(recs + [rec], b)
  {
    hide Shape, OfTx;
    var all := recs + [rec];
    forall id | id in b.vis.statuses ensures Shape(OfTx(all, id), b.vis.statuses[id]) {
      OfTxAppend(recs, rec, id);
      if id == rec.txId {
        if rec.RedoBegin? {
          NoneOfTx(recs, id);
          assert OfTx(all, id) == [rec];
          OneBegin(rec);
        } else {
          ShapeGrows(OfTx(recs, id), rec);
        }
      }
    }
    forall i | 0 <= i < |all| ensures all[i].txId in b.vis.statuses {
      if i < |recs| {
        assert all[i] == recs[i];
      }
    }
  }

  lemma OneBegin(rec: RedoRecord)
    requires rec.RedoBegin?
    ensures Shape([rec], Active)
  {
  }

  // The operations of the transaction manager.

  lemma BegunLogs(tx: TxState)
    requires TxOk(tx) && WalOk(tx)
    ensures WalOk(tx.Begun()) && Trail(tx.Begun()) == Trail(tx) + [RedoBegin(tx.nextTxId, tx.scn)]
  {
    hide Shaped;
    var rec := RedoBegin(tx.nextTxId, tx.scn);
    assert tx.log + (tx.buffer + [rec]) == Trail(tx) + [rec];
    ShapedAppend(Trail(tx), rec, tx, tx.Begun());
  }

  lemma InsertLogs(tx: TxState, id: nat, table: string, values: seq<Value>, rowIdx: nat)
    requires WalOk(tx) && IsActive(tx, id)
    ensures var after := tx.InsertRecorded(id, table, values, rowIdx);
            WalOk(after) && Trail(after) == Trail(tx) + [RedoInsert(id, tx.scn, table, values, rowIdx)]
  {
    hide Shaped;
    var after := tx.InsertRecorded(id, table, values, rowIdx);
    var rec := RedoInsert(id, tx.scn, table, values, rowIdx);
    assert tx.log + (tx.buffer + [rec]) == Trail(tx) + [rec];
    assert after.vis.statuses == tx.vis.statuses[id := Active];
    ShapedAppend(Trail(tx), rec, tx, after);
  }

  lemma CommitLogs(tx: TxState, id: nat)
    requires WalOk(tx) && IsActive(tx, id)
    ensures var after := tx.CommitDone(id);
            WalOk(after) && after.buffer == [] && Trail(after) == Trail(tx) + [RedoCommit(id, tx.scn + 1)]
  {
    hide Shaped;
    var after := tx.CommitDone(id);
    var rec := RedoCommit(id, tx.scn + 1);
    assert tx.log + (tx.buffer + [rec]) + [] == Trail(tx) + [rec];
    ShapedAppend(Trail(tx), rec, tx, after);
  }

  lemma RollbackLogs(tx: TxState, id: nat)
    requires WalOk(tx) && IsActive(tx, id)
    ensures var after := tx.UndoTaken(id).RollbackDone(id);
            WalOk(after) && after.buffer == [] && Trail(after) == Trail(tx) + [RedoRollback(id, tx.scn)]
  {
    hide Shaped;
    var after := tx.UndoTaken(id).RollbackDone(id);
    var rec := RedoRollback(id, tx.scn);
    assert tx.log + (tx.buffer + [rec]) + [] == Trail(tx) + [rec];
    ShapedAppend(Trail(tx), rec, tx, after);
  }

  lemma {:induction false} InsertRowsLog(db: Db, name: string, width: nat, tx: Option<nat>, rows: seq<seq<Expr>>, count: nat)
    requires name in db.tables && WalOk(db.tx)
    requires tx.Some? ==> IsActive(db.tx, tx.value)
    ensures WalOk(InsertRows(db, name, width, tx, rows, count).0.tx)
    decreases |rows|
  {
    hide RowValues, WalOk;
    if rows != [] && RowValues(rows[0], width).Ok? {
      var values := RowValues(rows[0], width).value;
      if tx.Some? {
        InsertLogs(db.tx, tx.value, name, values, |db.tables[name]|);
      }
      InsertRowsLog(InsertRow(db, name, tx, values), name, width, tx, rows[1..], count + 1);
    }
  }

  lemma {:induction false} InsertRowsTrail(db: Db, name: string, width: nat, tx: Option<nat>, rows: seq<seq<Expr>>, count: nat)
    requires name in db.tables
    ensures var after := InsertRows(db, name, width, tx, rows, count).0;
            && after.tx.scn == db.tx.scn && after.tx.nextTxId == db.tx.nextTxId && after.tx.log == db.tx.log
            && Trail(after.tx) == Trail(db.tx) +
               if tx.Some? then InsertRecords(tx.value, db.tx.scn, name, Accepted(rows, width), |db.tables[name]|) else []
    decreases |rows|
  {
    hide RowValues;
    if rows != [] && RowValues(rows[0], width).Ok? {
      var values := RowValues(rows[0], width).value;
      var mid := InsertRow(db, name, tx, values);
      InsertRowsTrail(mid, name, width, tx, rows[1..], count + 1);
      if tx.Some? {
        var first := RedoInsert(tx.value, db.tx.scn, name, values, |db.tables[name]|);
        var rest := InsertRecords(tx.value, db.tx.scn, name, Accepted(rows[1..], width), |db.tables[name]| + 1);
        var acc := Accepted(rows, width);
        assert acc[0] == values && acc[1..] == Accepted(rows[1..], width);
        assert Trail(mid.tx) == Trail(db.tx) + [first];
        hide Trail;
        assert (Trail(db.tx) + [first]) + rest == Trail(db.tx) + ([first] + rest);
      }
    } else {
      assert Trail(db.tx) + [] == Trail(db.tx);
    }
  }

  /** In any state at all, log and buffer grow by what the statement must log; the log itself grows only
      when a transaction ends, and the clock ticks only when one commits. */
  lemma StatementTrail(db: Db, session: Session, stmt: Statement, order: HashOrder)
    ensures var e := Execute(db, session, stmt, order);
            && Trail(e.db.tx) == Trail(db.tx) + Logs(db, session, stmt)
            && (e.db.tx.log == db.tx.log || EndsTerminal(e.db.tx.log))
            && e.db.tx.scn == db.tx.scn + (if stmt == Commit && session.current.Some? then 1 else 0)
            && e.db.tx.nextTxId == db.tx.nextTxId + (if stmt == Begin && session.current.None? then 1 else 0)
  {
    hide QueryResult, UndoAll, InsertRows, Lower, Accepted;
    var after := Execute(db, session, stmt, order).db.tx;
    match stmt
    case Begin =>
      assert Trail(db.tx) + [] == Trail(db.tx);
    case Commit =>
      if session.current.Some? {
        var rec := RedoCommit(session.current.value, db.tx.scn + 1);
        assert after.log == db.tx.log + (db.tx.buffer + [rec]) && after.log[|after.log| - 1] == rec;
      }
    case Rollback =>
      if session.current.Some? {
        var rec := RedoRollback(session.current.value, db.tx.scn);
        assert after.log == db.tx.log + (db.tx.buffer + [rec]) && after.log[|after.log| - 1] == rec;
      }
    case InsertInto(name, rows) =>
      var t := Lower(name);
      if t in db.catalog && t in db.tables {
        InsertRowsTrail(db, t, |db.catalog[t].columns|, session.current, rows, 0);
      }
    case _ =>
  }

  lemma StatementLogs(db: Db, session: Session, stmt: Statement, order: HashOrder)
    requires TxOk(db.tx) && WalOk(db.tx)
    requires session.current.Some? ==> IsActive(db.tx, session.current.value)
    ensures var e := Execute(db, session, stmt, order);
            WalOk(e.db.tx) && Trail(e.db.tx) == Trail(db.tx) + Logs(db, session, stmt)
  {
    hide QueryResult, UndoAll, InsertRows, Lower, TxOk, WalOk, Trail, Logs;
    StatementTrail(db, session, stmt, order);
    match stmt
    case Begin =>
      BegunLogs(db.tx);
    case Commit =>
      if session.current.Some? {
        CommitLogs(db.tx, session.current.value);
      }
    case Rollback =>
      if session.current.Some? {
        RollbackLogs(db.tx, session.current.value);
      }
    case InsertInto(name, rows) =>
      var t := Lower(name);
      if t in db.catalog && t in db.tables {
        InsertRowsLog(db, t, |db.catalog[t].columns|, session.current, rows, 0);
      }
    case _ =>
  }

  lemma FreshWal()
    ensures WalOk(Fresh().db.tx) && Trail(Fresh().db.tx) == []
  {
  }

  /** Write-ahead logging. In every run from a fresh server the log followed by the buffer is exactly
      what the statements had to log, in order; the log is empty or ends where a transaction ended;
      the buffer holds records of active transactions only. */
  lemma {:induction false} LogAndBufferAreHistory(steps: seq<Step>)
    requires NoCrash(steps)
    ensures WalOk(Play(Fresh(), steps).db.tx)
    ensures Trail(Play(Fresh(), steps).db.tx) == History(Fresh(), steps)
    decreases |steps|
  {
    hide WalOk, Trail, Logs, Execute, Inv;
    FreshIsOk();
    FreshWal();
    if steps != [] {
      var front, last := steps[..|steps| - 1], steps[|steps| - 1];
      LogAndBufferAreHistory(front);
      RunKeeps(Fresh(), front);
      var before := Play(Fresh(), front);
      SessionIsActive(before, if last.Run? then last.sid else 0);
      if last.Run? {
        StatementLogs(before.db, before.SessionOf(last.sid), last.stmt, last.order);
      } else {
        assert History(Fresh(), front) + [] == History(Fresh(), front);
      }
    }
  }

  lemma SessionIsActive(w: World, sid: nat)
    requires Inv(w)
    ensures TxOk(w.db.tx)
    ensures w.SessionOf(sid).current.Some? ==> IsActive(w.db.tx, w.SessionOf(sid).current.value)
  {
  }

  /** A finished transaction is on disk as a whole: its Begin, its Inserts, one terminal record. */
  lemma FinishedIsOnDisk(tx: TxState, id: nat)
    requires WalOk(tx) && id in tx.vis.statuses && tx.vis.statuses[id] != Active
    ensures OfTx(tx.log, id) == OfTx(Trail(tx), id) && Shape(OfTx(tx.log, id), tx.vis.statuses[id])
  {
    SelectConcat(tx.log, tx.buffer, (r: RedoRecord) => r.txId == id);
    NoneOfTx(tx.buffer, id);
    assert OfTx(tx.log, id) + [] == OfTx(tx.log, id);
  }
}
