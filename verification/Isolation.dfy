/** Isolation of whole queries: what other sessions do inside their open transactions never changes the
    result of any plan. */
module Isolation {
  import opened Wrappers
  import opened Storage
  import opened Catalog
  import opened Planner
  import opened Transactions
  import opened Sequences
  import opened Meaning
  import opened Handler
  import opened Recovery
  import opened Server
  import opened Lifecycle
  import opened WriteAhead
  import opened RollbackDiscipline
  import opened DisciplinedRuns

  // A plan reads nothing but the visible rows.

  /** Two contexts that show a query the same rows. */
  ghost predicate SameView(a: ExecutionContext, b: ExecutionContext) {
    && a.hashOrder == b.hashOrder
    && a.tables.Keys == b.tables.Keys
    && forall t | t in a.tables :: a.VisibleRows(a.tables[t]) == b.VisibleRows(b.tables[t])
  }

  lemma {:induction false} PlansSeeOnlyVisibleRows(plan: LogicalPlan, catalog: CatalogMap, a: ExecutionContext, b: ExecutionContext)
    requires SameView(a, b)
    ensures Denote(plan, catalog, a) == Denote(plan, catalog, b)
  {
    hide ExecutionContext.VisibleRows, PlanSchema, FilterOutcome, ProjectOutcome, LimitOutcome, SortOutcome, JoinOutcome, AggOutcome;
    match plan
    case DummyScan =>
    case Scan(t, _) =>
      if t in a.tables {
        assert a.tables[t][0..] == a.tables[t] && b.tables[t][0..] == b.tables[t];
      }
    case Join(left, right, _) =>
      PlansSeeOnlyVisibleRows(left, catalog, a, b);
      PlansSeeOnlyVisibleRows(right, catalog, a, b);
    case _ =>
      PlansSeeOnlyVisibleRows(plan.child, catalog, a, b);
  }

  lemma ResultsSeeOnlyVisibleRows(plan: LogicalPlan, catalog: CatalogMap, a: ExecutionContext, b: ExecutionContext)
    requires SameView(a, b)
    ensures QueryResult(plan, catalog, a) == QueryResult(plan, catalog, b)
  {
    hide Denote, Buildable, PlanSchema, SameView;
    PlansSeeOnlyVisibleRows(plan, catalog, a, b);
  }

  lemma {:induction false} VisibleIsSelect(ctx: ExecutionContext, rows: seq<Tuple>)
    ensures ctx.VisibleRows(rows) == Select(rows, (row: Tuple) => ctx.Sees(row))
  {
    hide ExecutionContext.Sees;
    if rows != [] {
      VisibleIsSelect(ctx, rows[1..]);
    }
  }

  /** A scan that starts now delivers, in storage order, exactly the system rows, the reader's own rows
      and the rows committed so far. */
  lemma FreshScanDeliversCommitted(w: World, own: Option<nat>, order: HashOrder, t: string)
    requires Inv(w) && t in w.db.tables
    ensures ScanStream(Reader(w.db, own, order), t, 0) ==
            Stream(Select(w.db.tables[t], (row: Tuple) => row.txId.None? || row.txId == own || CommittedNow(w.db.tx, row)), Done)
  {
    hide TablesIssued;
    var ctx, rows := Reader(w.db, own, order), w.db.tables[t];
    assert rows[0..] == rows;
    VisibleIsSelect(ctx, rows);
    SelectAgree(rows, (row: Tuple) => ctx.Sees(row),
                (row: Tuple) => row.txId.None? || row.txId == own || CommittedNow(w.db.tx, row));
  }

  // What one statement of another session leaves visible.

  /** The context of a query that a session with transaction `own` starts now. */
  function Reader(db: Db, own: Option<nat>, order: HashOrder): ExecutionContext {
    ExecutionContext(db.tables, db.tx.vis, own, db.tx.scn, order)
  }

  lemma BeginIsInvisible(db: Db, own: Option<nat>, order: HashOrder)
    requires TxOk(db.tx) && TablesIssued(db.tables, db.tx)
    ensures SameView(Reader(db, own, order), Reader(db.(tx := db.tx.Begun()), own, order))
  {
    var a, b := Reader(db, own, order), Reader(db.(tx := db.tx.Begun()), own, order);
    forall t | t in db.tables ensures a.VisibleRows(db.tables[t]) == b.VisibleRows(db.tables[t]) {
      var rows := db.tables[t];
      VisibleIsSelect(a, rows);
      VisibleIsSelect(b, rows);
      assert RowsIssued(rows, db.tx);
      SelectAgree(rows, (row: Tuple) => a.Sees(row), (row: Tuple) => b.Sees(row));
    }
  }

  lemma InsertedRowIsInvisible(db: Db, name: string, id: nat, values: seq<Value>, own: Option<nat>, order: HashOrder)
    requires name in db.tables && IsActive(db.tx, id) && own != Some(id)
    ensures SameView(Reader(db, own, order), Reader(InsertRow(db, name, Some(id), values), own, order))
  {
    hide Select;
    var after := InsertRow(db, name, Some(id), values);
    var a, b := Reader(db, own, order), Reader(after, own, order);
    forall t | t in db.tables ensures a.VisibleRows(db.tables[t]) == b.VisibleRows(after.tables[t]) {
      VisibleIsSelect(a, db.tables[t]);
      VisibleIsSelect(b, db.tables[t]);
      SelectAgree(db.tables[t], (row: Tuple) => a.Sees(row), (row: Tuple) => b.Sees(row));
      if t == name {
        var row := Tuple(values, Some(id), db.tx.scn);
        VisibleIsSelect(b, after.tables[t]);
        SelectAppend(db.tables[t], row, (row: Tuple) => b.Sees(row));
      }
    }
  }

  lemma SameViewTransitive(a: ExecutionContext, b: ExecutionContext, c: ExecutionContext)
    requires SameView(a, b) && SameView(b, c)
    ensures SameView(a, c)
  {
    hide ExecutionContext.VisibleRows;
  }

  lemma SameViewReflexive(a: ExecutionContext)
    ensures SameView(a, a)
  {
  }

  lemma {:induction false} InsertIsInvisible(db: Db, name: string, width: nat, id: nat, rows: seq<seq<Expr>>, count: nat,
                                             own: Option<nat>, order: HashOrder)
    requires name in db.tables && IsActive(db.tx, id) && own != Some(id)
    ensures SameView(Reader(db, own, order), Reader(InsertRows(db, name, width, Some(id), rows, count).0, own, order))
    decreases |rows|
  {
    hide RowValues, SameView;
    SameViewReflexive(Reader(db, own, order));
    if rows != [] && RowValues(rows[0], width).Ok? {
      var values := RowValues(rows[0], width).value;
      var mid := InsertRow(db, name, Some(id), values);
      InsertedRowIsInvisible(db, name, id, values, own, order);
      InsertIsInvisible(mid, name, width, id, rows[1..], count + 1, own, order);
      SameViewTransitive(Reader(db, own, order), Reader(mid, own, order),
                         Reader(InsertRows(db, name, width, Some(id), rows, count).0, own, order));
    }
  }

  lemma RollbackIsInvisible(db: Db, id: nat, own: Option<nat>, order: HashOrder)
    requires IsActive(db.tx, id) && SegmentExact(db, id) && own != Some(id)
    ensures SameView(Reader(db, own, order), Reader(RolledBackDb(db, id), own, order))
  {
    hide Select, SegmentExact, UndoAll;
    var after := RolledBackDb(db, id);
    var a, b := Reader(db, own, order), Reader(after, own, order);
    UndoAllPerTable(db.tables, db.tx.UndoOf(id), "");
    forall t | t in db.tables ensures a.VisibleRows(db.tables[t]) == b.VisibleRows(after.tables[t]) {
      RollbackIsExact(db, id, t);
      VisibleIsSelect(a, db.tables[t]);
      VisibleIsSelect(b, after.tables[t]);
      SelectTwice(db.tables[t], (row: Tuple) => row.txId != Some(id), (row: Tuple) => b.Sees(row),
                  (row: Tuple) => a.Sees(row));
    }
  }

  // Sessions.

  /** A step that stays inside open transactions of other sessions: BEGIN, INSERT in a transaction,
      ROLLBACK, a query, or a client that goes away. */
  predicate Quiet(w: World, step: Step, reader: nat) {
    match step
    case Run(sid, stmt, _) =>
      && sid != reader
      && (stmt.Begin? || stmt.Rollback? || stmt.Query? || (stmt.InsertInto? && w.SessionOf(sid).current.Some?))
    case Disconnect(sid) => sid != reader
    case Crash => false
  }

  ghost predicate QuietRun(w: World, steps: seq<Step>, reader: nat) {
    forall i | 0 <= i < |steps| :: Quiet(Play(w, steps[..i]), steps[i], reader)
  }

  lemma QuietStatement(db: Db, session: Session, stmt: Statement, own: Option<nat>, queryOrder: HashOrder, order: HashOrder)
    requires TxOk(db.tx) && TablesIssued(db.tables, db.tx) && UndoExact(db)
    requires session.current.Some? ==> IsActive(db.tx, session.current.value) && own != session.current
    requires stmt.Begin? || stmt.Rollback? || stmt.Query? || (stmt.InsertInto? && session.current.Some?)
    ensures var after := Execute(db, session, stmt, order).db;
            SameView(Reader(db, own, queryOrder), Reader(after, own, queryOrder)) && after.catalog == db.catalog
  {
    hide QueryResult, SameView, InsertRows, Lower, TxOk, SegmentExact;
    SameViewReflexive(Reader(db, own, queryOrder));
    match stmt
    case Begin => BeginIsInvisible(db, own, queryOrder);
    case Rollback =>
      if session.current.Some? {
        RollbackIsInvisible(db, session.current.value, own, queryOrder);
      }
    case InsertInto(name, rows) =>
      var t := Lower(name);
      if t in db.catalog && t in db.tables {
        InsertIsInvisible(db, t, |db.catalog[t].columns|, session.current.value, rows, 0, own, queryOrder);
        InsertRowsIssued(db, t, |db.catalog[t].columns|, session.current, rows, 0);
      }
    case Query(_) =>
  }

  lemma SessionsDiffer(w: World, sid: nat, reader: nat)
    requires Inv(w) && sid != reader
    ensures TxOk(w.db.tx) && TablesIssued(w.db.tables, w.db.tx)
    ensures w.SessionOf(sid).current.Some? ==>
              IsActive(w.db.tx, w.SessionOf(sid).current.value) && w.SessionOf(reader).current != w.SessionOf(sid).current
  {
  }

  lemma QuietStepIsInvisible(w: World, step: Step, reader: nat, plan: LogicalPlan, order: HashOrder)
    requires Consistent(w) && DisciplinedStep(w, step) && Quiet(w, step, reader)
    ensures ResponseTo(Next(w, step), Run(reader, Query(plan), order)) == ResponseTo(w, Run(reader, Query(plan), order))
  {
    hide QueryResult, SameView, UndoExact, Inv, WalOk, LiveOk, TxOk, TablesIssued;
    var own := w.SessionOf(reader).current;
    match step
    case Run(sid, stmt, stepOrder) =>
      SessionsDiffer(w, sid, reader);
      QuietStatement(w.db, w.SessionOf(sid), stmt, own, order, stepOrder);
      hide Execute;
      var after := Next(w, step);
      assert after.SessionOf(reader) == w.SessionOf(reader);
      ResultsSeeOnlyVisibleRows(plan, w.db.catalog, Reader(w.db, own, order), Reader(after.db, own, order));
      QueryResponse(w, reader, plan, order);
      QueryResponse(after, reader, plan, order);
    case Disconnect(sid) =>
    case Crash =>
  }

  lemma QueryResponse(w: World, reader: nat, plan: LogicalPlan, order: HashOrder)
    ensures ResponseTo(w, Run(reader, Query(plan), order)) ==
            AsResponse(QueryResult(plan, w.db.catalog, Reader(w.db, w.SessionOf(reader).current, order)), s => Answer(s))
  {
    hide QueryResult;
  }

  /** Isolation. After any disciplined run, let other sessions begin, insert and roll back in their own
      transactions, in any disciplined way: every query of the reader, for every plan and every hash
      order, has the result it had before. */
  lemma {:induction false} QueriesAreIsolated(before: seq<Step>, steps: seq<Step>, reader: nat, plan: LogicalPlan, order: HashOrder)
    requires DisciplinedRun(Fresh(), before)
    requires var w := Play(Fresh(), before); DisciplinedRun(w, steps) && QuietRun(w, steps, reader)
    ensures var w := Play(Fresh(), before);
            ResponseTo(Play(w, steps), Run(reader, Query(plan), order)) == ResponseTo(w, Run(reader, Query(plan), order))
    decreases |steps|
  {
    hide ResponseTo, Next, Consistent, DisciplinedStep, Quiet, Fresh;
    if steps != [] {
      var w, n := Play(Fresh(), before), |steps| - 1;
      FreshIsConsistent();
      DisciplinedRunKeeps(Fresh(), before);
      DisciplinedPrefix(w, steps, n);
      assert forall i | 0 <= i < n :: steps[..n][..i] == steps[..i];
      QueriesAreIsolated(before, steps[..n], reader, plan, order);
      DisciplinedRunKeeps(w, steps[..n]);
      assert DisciplinedStep(Play(w, steps[..n]), steps[n]) && Quiet(Play(w, steps[..n]), steps[n], reader);
      QuietStepIsInvisible(Play(w, steps[..n]), steps[n], reader, plan, order);
    }
  }
}
