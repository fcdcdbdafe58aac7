/** Stored rows against the catalog: exactly which statements keep every row in the shape of its table. */
module StoredRows {
  import opened Wrappers
  import opened Storage
  import opened Catalog
  import opened Planner
  import opened Transactions
  import opened Meaning
  import opened Typing
  import opened Handler
  import opened Recovery
  import opened Server
  import opened WriteAhead

  /** Stored rows have the declared width, and the declared types too when `typed`. */
  ghost predicate StorageFits(db: Db, typed: bool) {
    StoredRowsFit(db.catalog, db.tables, typed)
  }

  // The statements that can spoil it.

  predicate AcceptedFit(rows: seq<seq<Expr>>, schema: Schema, typed: bool) {
    forall i | 0 <= i < |Accepted(rows, |schema.columns|)| :: Fits(Accepted(rows, |schema.columns|)[i], schema, typed)
  }

  /** An INSERT whose rows fit its table, or a CREATE TABLE whose columns fit the rows that recovery may
      have left under its name. Every other statement is harmless. */
  predicate Harmless(db: Db, stmt: Statement, typed: bool) {
    match stmt
    case InsertInto(name, rows) =>
      Lower(name) in db.catalog && Lower(name) in db.tables ==> AcceptedFit(rows, db.catalog[Lower(name)], typed)
    case CreateTable(name, schema) =>
      Lower(name) !in db.catalog && Lower(name) in db.tables ==> RowsFit(db.tables[Lower(name)], schema, typed)
    case _ => true
  }

  lemma UndoOneFits(catalog: CatalogMap, tables: Tables, rec: UndoRecord, typed: bool)
    requires StoredRowsFit(catalog, tables, typed)
    ensures StoredRowsFit(catalog, UndoOne(tables, rec), typed)
  {
    hide Fits;
    if rec.table in tables && rec.table in catalog && rec.rowIdx < |tables[rec.table]| {
      assert RowsFit(tables[rec.table], catalog[rec.table], typed);
      assert RowsFit(RemoveAt(tables[rec.table], rec.rowIdx), catalog[rec.table], typed);
    }
  }

  lemma {:induction false} UndoAllFits(catalog: CatalogMap, tables: Tables, recs: seq<UndoRecord>, typed: bool)
    requires StoredRowsFit(catalog, tables, typed)
    ensures StoredRowsFit(catalog, UndoAll(tables, recs), typed)
    decreases |recs|
  {
    hide StoredRowsFit, UndoOne;
    if recs != [] {
      UndoOneFits(catalog, tables, recs[|recs| - 1], typed);
      UndoAllFits(catalog, UndoOne(tables, recs[|recs| - 1]), recs[..|recs| - 1], typed);
    }
  }

  lemma RowsFitSideBySide(a: seq<Tuple>, b: seq<Tuple>, schema: Schema, typed: bool)
    ensures RowsFit(a + b, schema, typed) <==> RowsFit(a, schema, typed) && RowsFit(b, schema, typed)
  {
    hide Fits;
    if RowsFit(a + b, schema, typed) {
      assert forall i | 0 <= i < |a| :: (a + b)[i] == a[i];
      assert forall i | 0 <= i < |b| :: (a + b)[|a| + i] == b[i];
    }
  }

  /** Replacing one table matters to that table only. */
  lemma OneTableFits(catalog: CatalogMap, tables: Tables, t: string, rows: seq<Tuple>, typed: bool)
    requires StoredRowsFit(catalog, tables, typed) && t in catalog
    ensures StoredRowsFit(catalog, tables[t := rows], typed) <==> RowsFit(rows, catalog[t], typed)
  {
    hide RowsFit;
    if StoredRowsFit(catalog, tables[t := rows], typed) {
      assert t in tables[t := rows] && tables[t := rows][t] == rows;
    }
  }

  lemma InsertFitsIff(db: Db, name: string, tx: Option<nat>, rows: seq<seq<Expr>>, typed: bool)
    requires StorageFits(db, typed) && name in db.catalog && name in db.tables
    ensures var after := InsertRows(db, name, |db.catalog[name].columns|, tx, rows, 0).0;
            after.catalog == db.catalog && (StorageFits(after, typed) <==> AcceptedFit(rows, db.catalog[name], typed))
  {
    var schema := db.catalog[name];
    var added := Tuples(Accepted(rows, |schema.columns|), tx, db.tx.scn);
    InsertKeepsAcceptedRows(db, name, |schema.columns|, tx, rows, 0);
    InsertKeepsCatalog(db, name, |schema.columns|, tx, rows, 0);
    OneTableFits(db.catalog, db.tables, name, db.tables[name] + added, typed);
    RowsFitSideBySide(db.tables[name], added, schema, typed);
    hide Fits, Accepted;
    assert RowsFit(db.tables[name], schema, typed);
    assert forall i | 0 <= i < |added| :: added[i].values == Accepted(rows, |schema.columns|)[i];
  }

  lemma {:induction false} InsertKeepsCatalog(db: Db, name: string, width: nat, tx: Option<nat>, rows: seq<seq<Expr>>, count: nat)
    requires name in db.tables
    ensures InsertRows(db, name, width, tx, rows, count).0.catalog == db.catalog
    decreases |rows|
  {
    if rows != [] && RowValues(rows[0], width).Ok? {
      InsertKeepsCatalog(InsertRow(db, name, tx, RowValues(rows[0], width).value), name, width, tx, rows[1..], count + 1);
    }
  }

  lemma CreateFitsIff(db: Db, t: string, schema: Schema, typed: bool)
    requires StorageFits(db, typed) && t !in db.catalog
    ensures var tables := if t in db.tables then db.tables else db.tables[t := []];
            StoredRowsFit(db.catalog[t := schema], tables, typed) <==>
            (t in db.tables ==> RowsFit(db.tables[t], schema, typed))
  {
    var tables := if t in db.tables then db.tables else db.tables[t := []];
    var catalog := db.catalog[t := schema];
    assert RowsFit([], schema, typed);
    hide RowsFit;
    assert StoredRowsFit(catalog, tables, typed) ==> RowsFit(tables[t], catalog[t], typed);
    if t in db.tables ==> RowsFit(db.tables[t], schema, typed) {
      forall x | x in catalog && x in tables ensures RowsFit(tables[x], catalog[x], typed) {
        assert x != t ==> RowsFit(db.tables[x], db.catalog[x], typed);
      }
    }
  }

  /** A statement keeps stored rows fitting if and only if it is harmless. */
  lemma StatementFitsIff(db: Db, session: Session, stmt: Statement, order: HashOrder, typed: bool)
    requires StorageFits(db, typed)
    ensures StorageFits(Execute(db, session, stmt, order).db, typed) <==> Harmless(db, stmt, typed)
  {
    hide QueryResult, StoredRowsFit, RowsFit, UndoAll, InsertRows, Lower, AcceptedFit;
    match stmt
    case Rollback =>
      if session.current.Some? {
        UndoAllFits(db.catalog, db.tables, db.tx.UndoOf(session.current.value), typed);
      }
    case InsertInto(name, rows) =>
      var t := Lower(name);
      if t in db.catalog && t in db.tables {
        InsertFitsIff(db, t, session.current, rows, typed);
      }
    case CreateTable(name, schema) =>
      if Lower(name) !in db.catalog {
        CreateFitsIff(db, Lower(name), schema, typed);
      }
    case _ =>
  }

  // Whole runs, crashes included.

  ghost predicate HarmlessStep(w: World, step: Step, typed: bool) {
    step.Run? ==> Harmless(w.db, step.stmt, typed)
  }

  ghost predicate HarmlessRun(steps: seq<Step>, typed: bool) {
    forall i | 0 <= i < |steps| :: HarmlessStep(Play(Fresh(), steps[..i]), steps[i], typed)
  }

  lemma HarmlessPrefix(steps: seq<Step>, n: nat, typed: bool)
    requires HarmlessRun(steps, typed) && n <= |steps|
    ensures HarmlessRun(steps[..n], typed)
  {
    hide Play;
    forall i | 0 <= i < n ensures HarmlessStep(Play(Fresh(), steps[..n][..i]), steps[..n][i], typed) {
      assert steps[..n][..i] == steps[..i];
    }
  }

  lemma {:induction false} HarmlessRunFits(steps: seq<Step>, typed: bool)
    requires HarmlessRun(steps, typed)
    ensures StorageFits(Play(Fresh(), steps).db, typed)
    decreases |steps|
  {
    hide Execute, Harmless, Booted;
    if steps != [] {
      var n := |steps| - 1;
      HarmlessPrefix(steps, n, typed);
      HarmlessRunFits(steps[..n], typed);
      var w := Play(Fresh(), steps[..n]);
      assert HarmlessStep(w, steps[n], typed);
      match steps[n]
      case Run(sid, stmt, order) => StatementFitsIff(w.db, w.SessionOf(sid), stmt, order, typed);
      case Disconnect(_) =>
      case Crash => BootedCatalog(w.db.tx.log);
    } else {
      BootedCatalog([]);
    }
  }

  lemma BootedCatalog(log: seq<RedoRecord>)
    ensures Booted(log).catalog == map[]
  {
  }

  /** Until the first crash widths take care of themselves: INSERT checks them, and no rows wait for a
      table to be created. */
  lemma {:induction false} WidthsNeedNoCare(steps: seq<Step>)
    requires NoCrash(steps)
    ensures HarmlessRun(steps, false)
    ensures Play(Fresh(), steps).db.catalog.Keys == Play(Fresh(), steps).db.tables.Keys
    decreases |steps|
  {
    hide Execute, Harmless, Play;
    if steps == [] {
      assert Play(Fresh(), []) == Fresh() by {
        FreshPlay();
      }
    } else {
      var n := |steps| - 1;
      WidthsNeedNoCare(steps[..n]);
      var w := Play(Fresh(), steps[..n]);
      assert Play(Fresh(), steps) == Next(w, steps[n]) by {
        PlayLast(Fresh(), steps);
      }
      if steps[n].Run? {
        OneCatalog(w.db, w.SessionOf(steps[n].sid), steps[n].stmt, steps[n].order);
      }
      forall i | 0 <= i < |steps| ensures HarmlessStep(Play(Fresh(), steps[..i]), steps[i], false) {
        if i < n {
          assert steps[..n][..i] == steps[..i];
          assert HarmlessStep(Play(Fresh(), steps[..n][..i]), steps[..n][i], false);
        }
      }
    }
  }

  lemma FreshPlay()
    ensures Play(Fresh(), []) == Fresh()
    ensures Fresh().db.catalog == map[] && Fresh().db.tables == map[]
  {
  }

  lemma PlayLast(w: World, steps: seq<Step>)
    requires steps != []
    ensures Play(w, steps) == Next(Play(w, steps[..|steps| - 1]), steps[|steps| - 1])
  {
  }

  lemma {:induction false} AcceptedHaveWidth(rows: seq<seq<Expr>>, width: nat)
    ensures forall i | 0 <= i < |Accepted(rows, width)| :: |Accepted(rows, width)[i]| == width
  {
    if rows != [] {
      AcceptedHaveWidth(rows[1..], width);
    }
  }

  lemma {:induction false} UndoKeepsTables(tables: Tables, recs: seq<UndoRecord>)
    ensures UndoAll(tables, recs).Keys == tables.Keys
    decreases |recs|
  {
    if recs != [] {
      UndoKeepsTables(UndoOne(tables, recs[|recs| - 1]), recs[..|recs| - 1]);
    }
  }

  lemma OneCatalog(db: Db, session: Session, stmt: Statement, order: HashOrder)
    requires db.catalog.Keys == db.tables.Keys
    ensures var after := Execute(db, session, stmt, order).db;
            after.catalog.Keys == after.tables.Keys && Harmless(db, stmt, false)
  {
    hide QueryResult, UndoAll, InsertRows, Lower, Accepted, RowsFit;
    match stmt
    case Rollback =>
      if session.current.Some? {
        UndoKeepsTables(db.tables, db.tx.UndoOf(session.current.value));
      }
    case InsertInto(name, rows) =>
      var t := Lower(name);
      if t in db.catalog {
        var width := |db.catalog[t].columns|;
        AcceptedHaveWidth(rows, width);
        InsertKeepsAcceptedRows(db, t, width, session.current, rows, 0);
        InsertKeepsCatalog(db, t, width, session.current, rows, 0);
      }
    case _ =>
  }
}
