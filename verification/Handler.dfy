/** One statement of one session (src/handler.rs): its effect as a function on the values of the
    shared state, and the handler as a method on the shared objects, tied to that function. */
module Handler {
  import opened Wrappers
  import opened Storage
  import opened Catalog
  import opened Planner
  import opened Transactions
  import opened Meaning
  import Executor

  type Tables = map<string, seq<Tuple>>

  datatype Db = Db(catalog: CatalogMap, tables: Tables, tx: TxState)

  datatype Session = Session(current: Option<nat>, crScn: nat)

  datatype Statement =
    | Begin
    | Commit
    | Rollback
    | CreateTable(name: string, schema: Schema)
    | InsertInto(name: string, rows: seq<seq<Expr>>)
    | Query(plan: LogicalPlan)

  datatype Response =
    | Began(tx: nat)
    | CommittedTx(tx: nat)
    | RolledBackTx(tx: nat)
    | Created(name: string)
    | Inserted(count: nat)
    | Answer(result: ResultSet)

  datatype Effect = Effect(db: Db, session: Session, response: Result<Response>)

  function LowerChar(c: char): char {
    if 'A' <= c <= 'Z' then c + ('a' - 'A') else c
  }

  function Lower(s: string): string {
    seq(|s|, i requires 0 <= i < |s| => LowerChar(s[i]))
  }

  function RemoveAt(rows: seq<Tuple>, i: nat): seq<Tuple>
    requires i < |rows|
  {
    rows[..i] + rows[i + 1..]
  }

  /** Undoes one insert by position; a position past the end is skipped. */
  function UndoOne(tables: Tables, rec: UndoRecord): Tables {
    if rec.table in tables && rec.rowIdx < |tables[rec.table]| then
      tables[rec.table := RemoveAt(tables[rec.table], rec.rowIdx)]
    else tables
  }

  /** Undoes a segment from its last record to its first. */
  function UndoAll(tables: Tables, recs: seq<UndoRecord>): Tables {
    if recs == [] then tables
    else UndoAll(UndoOne(tables, recs[|recs| - 1]), recs[..|recs| - 1])
  }

  /** A row of literals becomes values, or is rejected. */
  function RowValues(row: seq<Expr>, width: nat): Result<seq<Value>> {
    if |row| != width then Err(ColumnCountMismatch) else EvalAll(row, [], Schema([]))
  }

  function InsertRow(db: Db, name: string, tx: Option<nat>, values: seq<Value>): Db
    requires name in db.tables
  {
    var rows := db.tables[name];
    db.(
    tables := db.tables[name := rows + [Tuple(values, tx, db.tx.scn)]],
    tx := if tx.Some? then db.tx.InsertRecorded(tx.value, name, values, |rows|) else db.tx)
  }

  /** Inserts row by row; a rejected row ends the statement but keeps the rows before it. */
  function InsertRows(db: Db, name: string, width: nat, tx: Option<nat>, rows: seq<seq<Expr>>, count: nat): (Db, Result<nat>)
    requires name in db.tables
    decreases |rows|
  {
    if rows == [] then (db, Ok(count))
    else
      match RowValues(rows[0], width)
      case Err(e) => (db, Err(e))
      case Ok(values) => InsertRows(InsertRow(db, name, tx, values), name, width, tx, rows[1..], count + 1)
  }

  function AsResponse<T>(r: Result<T>, f: T -> Response): Result<Response> {
    match r
    case Ok(v) => Ok(f(v))
    case Err(e) => Err(e)
  }

  function Context(db: Db, session: Session, order: HashOrder): ExecutionContext {
    ExecutionContext(db.tables, db.tx.vis, session.current, session.crScn, order)
  }

  /** The effect of one statement. Queries capture the current SCN first. */
  function Execute(db: Db, session: Session, stmt: Statement, order: HashOrder): Effect {
    match stmt
    case Begin =>
      if session.current.Some? then Effect(db, session, Err(TransactionAlreadyActive))
      else
        var tx := db.tx.nextTxId;
        Effect(db.(tx := db.tx.Begun()), session.(current := Some(tx)), Ok(Began(tx)))
    case Commit =>
      if session.current.None? then Effect(db, session, Err(NoActiveTransaction))
      else
        var tx := session.current.value;
        Effect(db.(tx := db.tx.CommitDone(tx)), session.(current := None), Ok(CommittedTx(tx)))
    case Rollback =>
      if session.current.None? then Effect(db, session, Err(NoActiveTransaction))
      else
        var tx := session.current.value;
        Effect(RolledBackDb(db, tx), session.(current := None), Ok(RolledBackTx(tx)))
    case CreateTable(name, schema) =>
      var lower := Lower(name);
      if lower in db.catalog then Effect(db, session, Err(TableAlreadyExists(name)))
      else
        var tables := if lower in db.tables then db.tables else db.tables[lower := []];
        Effect(db.(catalog := db.catalog[lower := schema], tables := tables), session, Ok(Created(name)))
    case InsertInto(name, rows) =>
      var lower := Lower(name);
      if lower !in db.catalog then Effect(db, session, Err(TableNotInCatalog(name)))
      else if lower !in db.tables then Effect(db, session, Err(TableNotInStorage(name)))
      else
        var (after, count) := InsertRows(db, lower, |db.catalog[lower].columns|, session.current, rows, 0);
        Effect(after, session, AsResponse(count, n => Inserted(n)))
    case Query(plan) =>
      var reading := session.(crScn := db.tx.scn);
      Effect(db, reading, AsResponse(QueryResult(plan, db.catalog, Context(db, reading, order)), s => Answer(s)))
  }

  function RolledBackDb(db: Db, tx: nat): Db {
    db.(
    tables := UndoAll(db.tables, db.tx.UndoOf(tx)),
    tx := db.tx.UndoTaken(tx).RollbackDone(tx))
  }

  class SessionState {
    var currentTxId: Option<nat>
    var crScn: nat

    ghost function View(): Session
      reads this
    {
      Session(currentTxId, crScn)
    }

    constructor ()
      ensures View() == Session(None, 0)
    {
      currentTxId, crScn := None, 0;
    }
  }

  class DatabaseState {
    const catalog: CatalogStore
    var tables: Tables
    const txMgr: TransactionManager

    ghost function View(): Db
      reads this, catalog, txMgr
    {
      Db(catalog.tables, tables, txMgr.View())
    }

    constructor (log: seq<RedoRecord>)
      ensures fresh(catalog) && fresh(txMgr)
      ensures View() == Db(map[], map[], Opened(log))
    {
      catalog := new CatalogStore();
      txMgr := new TransactionManager(log);
      tables := map[];
    }

    method Handle(session: SessionState, stmt: Statement, order: HashOrder) returns (response: Result<Response>)
      modifies this, catalog, txMgr, session
      ensures Effect(View(), session.View(), response) == old(Execute(View(), session.View(), stmt, order))
    {
      match stmt
      case Begin =>
        if session.currentTxId.Some? {
          return Err(TransactionAlreadyActive);
        }
        var tx := txMgr.Begin();
        session.currentTxId := Some(tx);
        response := Ok(Began(tx));
      case Commit =>
        if session.currentTxId.None? {
          return Err(NoActiveTransaction);
        }
        var tx := session.currentTxId.value;
        txMgr.Commit(tx);
        session.currentTxId := None;
        response := Ok(CommittedTx(tx));
      case Rollback =>
        if session.currentTxId.None? {
          return Err(NoActiveTransaction);
        }
        var tx := session.currentTxId.value;
        UndoAndRollBack(tx);
        session.currentTxId := None;
        response := Ok(RolledBackTx(tx));
      case CreateTable(name, schema) =>
        var lower := Lower(name);
        if lower in catalog.tables {
          return Err(TableAlreadyExists(name));
        }
        catalog.AddTable(lower, schema);
        if lower !in tables {
          tables := tables[lower := []];
        }
        response := Ok(Created(name));
      case InsertInto(name, rows) =>
        var lower := Lower(name);
        if lower !in catalog.tables {
          return Err(TableNotInCatalog(name));
        }
        if lower !in tables {
          return Err(TableNotInStorage(name));
        }
        var count := Insert(lower, |catalog.tables[lower].columns|, session.currentTxId, rows);
        response := AsResponse(count, n => Inserted(n));
      case Query(plan) =>
        session.crScn := txMgr.scn;
        var ctx := ExecutionContext(tables, Visibility(txMgr.statuses, txMgr.commitScns),
                                    session.currentTxId, session.crScn, order);
        var answer := Executor.RunQuery(plan, catalog.tables, ctx);
        response := AsResponse(answer, s => Answer(s));
    }

    method UndoAndRollBack(tx: nat)
      modifies this, txMgr
      ensures View() == RolledBackDb(old(View()), tx)
    {
      var undoRecords := if tx in txMgr.undoSegments then txMgr.undoSegments[tx] else [];
      txMgr.undoSegments := txMgr.undoSegments - {tx};
      var i := |undoRecords|;
      assert undoRecords[..i] == undoRecords;
      while i > 0
        invariant 0 <= i <= |undoRecords|
        invariant UndoAll(tables, undoRecords[..i]) == UndoAll(old(tables), undoRecords)
        invariant txMgr.View() == old(txMgr.View()).UndoTaken(tx)
      {
        i := i - 1;
        var UndoInsert(table, rowIdx) := undoRecords[i];
        assert undoRecords[..i + 1][..i] == undoRecords[..i];
        if table in tables && rowIdx < |tables[table]| {
          tables := tables[table := RemoveAt(tables[table], rowIdx)];
        }
      }
      assert undoRecords[..0] == [];
      txMgr.Rollback(tx);
    }

    method Insert(name: string, width: nat, tx: Option<nat>, rows: seq<seq<Expr>>) returns (count: Result<nat>)
      requires name in tables
      modifies this, txMgr
      ensures (View(), count) == InsertRows(old(View()), name, width, tx, rows, 0)
    {
      var scn := txMgr.scn;
      var inserted := 0;
      assert rows[0..] == rows;
      for k := 0 to |rows|
        invariant name in tables && txMgr.scn == scn && inserted == k
        invariant InsertRows(View(), name, width, tx, rows[k..], inserted) ==
                  InsertRows(old(View()), name, width, tx, rows, 0)
      {
        var row := rows[k];
        assert rows[k..][1..] == rows[k + 1..];
        if |row| != width {
          return Err(ColumnCountMismatch);
        }
        var vals := EvalAll(row, [], Schema([]));
        if vals.Err? {
          return Err(vals.error);
        }
        var rowIdx := |tables[name]|;
        if tx.Some? {
          txMgr.RecordInsert(tx.value, name, vals.value, rowIdx);
        }
        tables := tables[name := tables[name] + [Tuple(vals.value, tx, scn)]];
        inserted := inserted + 1;
      }
      count := Ok(inserted);
    }
  }
}
