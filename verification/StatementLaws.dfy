/** What statements answer and accept: table names in any casing, rows of literals, responses. */
module StatementLaws {
  import opened Wrappers
  import opened Storage
  import opened Catalog
  import opened Planner
  import opened Transactions
  import opened Meaning
  import opened Handler
  import opened Recovery
  import opened Lifecycle
  import opened WriteAhead
  import opened StoredRows
  import opened PlanLaws

  // Names in any casing.

  predicate SameLetter(c: char, d: char) {
    || c == d
    || ('A' <= c <= 'Z' && d as int == c as int + 32)
    || ('A' <= d <= 'Z' && c as int == d as int + 32)
  }

  /** The names differ in the case of letters only. */
  predicate SameName(s: string, t: string) {
    |s| == |t| && forall i | 0 <= i < |s| :: SameLetter(s[i], t[i])
  }

  lemma LowerCharIff(c: char, d: char)
    ensures LowerChar(c) == LowerChar(d) <==> SameLetter(c, d)
  {
  }

  /** Names are taken to be the same exactly if they differ in case only. */
  lemma LowerIff(s: string, t: string)
    ensures Lower(s) == Lower(t) <==> SameName(s, t)
  {
    hide LowerChar, SameLetter;
    forall i | 0 <= i < |s| && i < |t| ensures Lower(s)[i] == Lower(t)[i] <==> SameLetter(s[i], t[i]) {
      LowerCharIff(s[i], t[i]);
    }
    if Lower(s) == Lower(t) {
      assert |s| == |Lower(s)| == |t|;
      forall i | 0 <= i < |s| ensures SameLetter(s[i], t[i]) {
        assert Lower(s)[i] == Lower(t)[i];
      }
    }
  }

  /** After CREATE TABLE under one casing, INSERT under any other reaches the table, behind the rows that are
      there, and the table cannot be created again; INSERT under a name that differs in more does not. */
  lemma CreatedUnderAnyCasing(db: Db, session: Session, name: string, schema: Schema, other: string, rows: seq<seq<Expr>>, order: HashOrder)
    requires Execute(db, session, CreateTable(name, schema), order).response.Ok?
    ensures var created := Execute(db, session, CreateTable(name, schema), order);
            var inserted := Execute(created.db, created.session, InsertInto(other, rows), order);
            var t, accepted := Lower(name), Accepted(rows, |schema.columns|);
            && (SameName(name, other) ==>
                  && inserted.db.tables == created.db.tables[t := RowsIn(db.tables, t) + Tuples(accepted, session.current, db.tx.scn)]
                  && (inserted.response.Ok? <==> |accepted| == |rows|)
                  && Execute(created.db, created.session, CreateTable(other, schema), order).response == Err(TableAlreadyExists(other)))
            && (!SameName(name, other) && Lower(other) !in db.catalog ==>
                  inserted.response == Err(TableNotInCatalog(other)) && inserted.db == created.db)
  {
    hide InsertRows, Accepted, Tuples, Lower;
    LowerIff(name, other);
    var created := Execute(db, session, CreateTable(name, schema), order);
    var t := Lower(name);
    assert created.db.tables[t] == RowsIn(db.tables, t);
    InsertKeepsAcceptedRows(created.db, t, |schema.columns|, session.current, rows, 0);
  }

  // Rows of literals.

  /** A row is stored exactly as its expressions evaluate, each on its own; it is rejected for its width, or
      else for the first of them that fails. */
  lemma RowAcceptedIff(row: seq<Expr>, width: nat)
    ensures forall vals :: RowValues(row, width) == Ok(vals) <==> |row| == width && Evaluates(row, Plain([]), Schema([]), vals)
    ensures |row| != width ==> RowValues(row, width) == Err(ColumnCountMismatch)
    ensures |row| == width ==>
              forall e :: RowValues(row, width) == Err(e) <==> exists k: nat :: FailsAt(row, Plain([]), Schema([]), k, e)
  {
    hide EvalAll, Evaluates, FailsAt;
    EvalAllIff(row, Plain([]), Schema([]));
  }

  function Literals(vals: seq<Value>): (row: seq<Expr>)
    ensures |row| == |vals| && forall i | 0 <= i < |row| :: row[i] == Const(vals[i])
  {
    seq(|vals|, i requires 0 <= i < |vals| => Const(vals[i]))
  }

  lemma LiteralsAreStored(vals: seq<Value>)
    ensures RowValues(Literals(vals), |vals|) == Ok(vals)
  {
    hide RowValues;
    RowAcceptedIff(Literals(vals), |vals|);
    assert Evaluates(Literals(vals), Plain([]), Schema([]), vals);
  }

  // Responses.

  /** What a client is told is what happened. */
  ghost predicate ResponseIsTrue(db: Db, session: Session, e: Effect) {
    match e.response
    case Ok(Began(id)) =>
      && session.current.None? && e.session.current == Some(id) && IsActive(e.db.tx, id) && id == db.tx.nextTxId
      && id in e.db.tx.undo && e.db.tx.undo[id] == []
    case Ok(CommittedTx(id)) =>
      && session.current == Some(id) && e.session.current == None
      && id in e.db.tx.vis.statuses && e.db.tx.vis.statuses[id] == Committed
      && id in e.db.tx.vis.commitScns && e.db.tx.vis.commitScns[id] == e.db.tx.scn == db.tx.scn + 1
    case Ok(RolledBackTx(id)) =>
      && session.current == Some(id) && e.session.current == None
      && id in e.db.tx.vis.statuses && e.db.tx.vis.statuses[id] == RolledBack && e.db.tx.scn == db.tx.scn
      && e.db.tx.undo == db.tx.undo - {id}
    case Ok(Created(name)) => Lower(name) !in db.catalog && Lower(name) in e.db.catalog && Lower(name) in e.db.tables
    case Ok(Inserted(count)) =>
      exists t :: t in db.tables && t in e.db.tables && |e.db.tables[t]| == |db.tables[t]| + count
                  && e.db.tables == db.tables[t := e.db.tables[t]]
    case Ok(Answer(_)) => e.db == db && e.session == session.(crScn := db.tx.scn)
    case Err(_) => e.session.current == session.current
  }

  lemma ResponsesAreTrue(db: Db, session: Session, stmt: Statement, order: HashOrder)
    ensures ResponseIsTrue(db, session, Execute(db, session, stmt, order))
  {
    hide QueryResult, UndoAll, InsertRows, Lower, Accepted, Tuples;
    if stmt.InsertInto? {
      var t := Lower(stmt.name);
      if t in db.catalog && t in db.tables {
        var width := |db.catalog[t].columns|;
        InsertKeepsAcceptedRows(db, t, width, session.current, stmt.rows, 0);
        var e := Execute(db, session, stmt, order);
        assert |Tuples(Accepted(stmt.rows, width), session.current, db.tx.scn)| == |Accepted(stmt.rows, width)|;
        assert e.response.Ok? ==> |e.db.tables[t]| == |db.tables[t]| + |stmt.rows|;
      }
    }
  }

  /** Exactly which statements succeed, and with what kind of answer. */
  lemma SucceedsIff(db: Db, session: Session, stmt: Statement, order: HashOrder)
    ensures var r := Execute(db, session, stmt, order).response;
            match stmt
            case Begin => if session.current == None then r.Ok? && r.value.Began? else r == Err(TransactionAlreadyActive)
            case Commit => if session.current.Some? then r.Ok? && r.value.CommittedTx? else r == Err(NoActiveTransaction)
            case Rollback => if session.current.Some? then r.Ok? && r.value.RolledBackTx? else r == Err(NoActiveTransaction)
            case CreateTable(name, _) => if Lower(name) in db.catalog then r == Err(TableAlreadyExists(name)) else r == Ok(Created(name))
            case InsertInto(name, rows) =>
              if Lower(name) !in db.catalog then r == Err(TableNotInCatalog(name))
              else if Lower(name) !in db.tables then r == Err(TableNotInStorage(name))
              else (r == Ok(Inserted(|rows|)) <==> |Accepted(rows, |db.catalog[Lower(name)].columns|)| == |rows|)
            case Query(_) => r.Ok? ==> r.value.Answer?
  {
    hide QueryResult, UndoAll, InsertRows, Lower, Accepted, Tuples;
    if stmt.InsertInto? {
      var t := Lower(stmt.name);
      if t in db.catalog && t in db.tables {
        InsertKeepsAcceptedRows(db, t, |db.catalog[t].columns|, session.current, stmt.rows, 0);
      }
    }
  }
}
