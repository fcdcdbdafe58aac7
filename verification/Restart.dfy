/** A server restarted after a crash, as it boots: recovery, then its demo statements. What queries answer
    then, end to end from the log to the rows a client is sent. */
module Restart {
  import opened Wrappers
  import opened Storage
  import opened Catalog
  import opened Planner
  import opened Transactions
  import opened Sequences
  import opened Meaning
  import opened Handler
  import opened Recovery
  import opened Server
  import opened Lifecycle
  import opened WriteAhead
  import opened Durability
  import opened DisciplinedRuns
  import opened StoredRows
  import opened Isolation

  // The boot script.

  /** A table that the server creates and fills at every start, outside of transactions. */
  datatype DemoTable = DemoTable(name: string, schema: Schema, rows: seq<seq<Expr>>)

  predicate DemoOk(demo: seq<DemoTable>) {
    && (forall i | 0 <= i < |demo| :: Lower(demo[i].name) == demo[i].name)
    && forall i, j | 0 <= i < j < |demo| :: demo[i].name != demo[j].name
  }

  function DemoSteps(sid: nat, demo: seq<DemoTable>, order: HashOrder): seq<Step> {
    if demo == [] then []
    else
      var last := demo[|demo| - 1];
      DemoSteps(sid, demo[..|demo| - 1], order) +
      [Run(sid, CreateTable(last.name, last.schema), order), Run(sid, InsertInto(last.name, last.rows), order)]
  }

  /** The rows the script puts into table t. */
  function DemoRows(demo: seq<DemoTable>, t: string, scn: nat): seq<Tuple> {
    if demo == [] then []
    else
      var last := demo[|demo| - 1];
      DemoRows(demo[..|demo| - 1], t, scn) +
      if last.name == t then Tuples(Accepted(last.rows, |last.schema.columns|), None, scn) else []
  }

  predicate IsDemo(demo: seq<DemoTable>, t: string) {
    exists i :: 0 <= i < |demo| && demo[i].name == t
  }

  /** A crash, recovery and the boot script. */
  function Restarted(w: World, sid: nat, demo: seq<DemoTable>, order: HashOrder): World {
    Play(Next(w, Crash), DemoSteps(sid, demo, order))
  }

  /** After that a client creates table t again; for a table of the script this fails and changes nothing. */
  function Recreated(w: World, sid: nat, demo: seq<DemoTable>, t: string, schema: Schema, order: HashOrder): World {
    Next(Restarted(w, sid, demo, order), Run(sid, CreateTable(t, schema), order))
  }

  // What the script does.

  ghost predicate Idle(w: World) {
    forall s :: w.SessionOf(s).current == None
  }

  ghost predicate Loaded(w: World, after: World, demo: seq<DemoTable>) {
    && after.db.tx == w.db.tx && Idle(after)
    && (forall t :: t in after.db.catalog <==> IsDemo(demo, t))
    && (forall t :: t in after.db.catalog ==> t in after.db.tables)
    && (forall t :: RowsIn(after.db.tables, t) == RowsIn(w.db.tables, t) + DemoRows(demo, t, w.db.tx.scn))
  }

  lemma {:induction false} InsertOutside(db: Db, name: string, width: nat, rows: seq<seq<Expr>>, count: nat)
    requires name in db.tables
    ensures InsertRows(db, name, width, None, rows, count).0.tx == db.tx
    decreases |rows|
  {
    if rows != [] && RowValues(rows[0], width).Ok? {
      InsertOutside(InsertRow(db, name, None, RowValues(rows[0], width).value), name, width, rows[1..], count + 1);
    }
  }

  lemma IdleSession(w: World, after: World, sid: nat)
    requires Idle(w) && after.sessions == w.sessions[sid := after.SessionOf(sid)] && after.SessionOf(sid).current == None
    ensures Idle(after)
  {
    forall s ensures after.SessionOf(s).current == None {
      assert w.SessionOf(s).current == None;
    }
  }

  /** Creating a table and inserting into it, outside of transactions. */
  lemma OneTableLoaded(w: World, sid: nat, table: DemoTable, order: HashOrder)
    requires Idle(w) && Lower(table.name) == table.name && table.name !in w.db.catalog
    ensures var after := Next(Next(w, Run(sid, CreateTable(table.name, table.schema), order)),
                              Run(sid, InsertInto(table.name, table.rows), order));
            && after.db.tx == w.db.tx && Idle(after)
            && after.db.catalog == w.db.catalog[table.name := table.schema]
            && after.db.tables == w.db.tables[table.name := RowsIn(w.db.tables, table.name) +
                                                            Tuples(Accepted(table.rows, |table.schema.columns|), None, w.db.tx.scn)]
  {
    hide InsertRows, Accepted, Tuples, Lower;
    var created := Next(w, Run(sid, CreateTable(table.name, table.schema), order));
    var name, width := table.name, |table.schema.columns|;
    assert created.SessionOf(sid).current == None;
    assert created.db.catalog == w.db.catalog[name := table.schema];
    assert created.db.tables == w.db.tables[name := RowsIn(w.db.tables, name)];
    InsertKeepsAcceptedRows(created.db, name, width, None, table.rows, 0);
    InsertKeepsCatalog(created.db, name, width, None, table.rows, 0);
    InsertOutside(created.db, name, width, table.rows, 0);
    IdleSession(w, created, sid);
    IdleSession(created, Next(created, Run(sid, InsertInto(name, table.rows), order)), sid);
  }

  lemma PlayTwo(w: World, steps: seq<Step>, a: Step, b: Step)
    ensures Play(w, steps + [a, b]) == Next(Next(Play(w, steps), a), b)
  {
    hide Next;
    assert (steps + [a, b])[..|steps| + 1] == steps + [a];
    assert (steps + [a])[..|steps|] == steps;
  }

  lemma IsDemoFront(demo: seq<DemoTable>, t: string)
    requires demo != []
    ensures IsDemo(demo, t) <==> IsDemo(demo[..|demo| - 1], t) || demo[|demo| - 1].name == t
  {
    var front := demo[..|demo| - 1];
    if IsDemo(demo, t) && demo[|demo| - 1].name != t {
      var i :| 0 <= i < |demo| && demo[i].name == t;
      assert front[i].name == t;
    }
    if IsDemo(front, t) {
      var i :| 0 <= i < |front| && front[i].name == t;
      assert demo[i].name == t;
    }
  }

  lemma DemoRowsLast(demo: seq<DemoTable>, t: string, scn: nat)
    requires demo != []
    ensures var last := demo[|demo| - 1];
            DemoRows(demo, t, scn) == DemoRows(demo[..|demo| - 1], t, scn) +
                                      if last.name == t then Tuples(Accepted(last.rows, |last.schema.columns|), None, scn) else []
  {
  }

  lemma LoadedOneMore(w: World, mid: World, after: World, demo: seq<DemoTable>)
    requires demo != [] && Loaded(w, mid, demo[..|demo| - 1])
    requires var last := demo[|demo| - 1];
             && after.db.tx == mid.db.tx && Idle(after)
             && after.db.catalog == mid.db.catalog[last.name := last.schema]
             && after.db.tables == mid.db.tables[last.name := RowsIn(mid.db.tables, last.name) +
                                                              Tuples(Accepted(last.rows, |last.schema.columns|), None, mid.db.tx.scn)]
    ensures Loaded(w, after, demo)
  {
    hide IsDemo, Tuples, Accepted, DemoRows, Idle;
    var last, scn := demo[|demo| - 1], w.db.tx.scn;
    var added := Tuples(Accepted(last.rows, |last.schema.columns|), None, scn);
    forall t
      ensures t in after.db.catalog <==> IsDemo(demo, t)
      ensures RowsIn(after.db.tables, t) == RowsIn(w.db.tables, t) + DemoRows(demo, t, scn)
    {
      IsDemoFront(demo, t);
      DemoRowsLast(demo, t, scn);
      var before, front := RowsIn(w.db.tables, t), DemoRows(demo[..|demo| - 1], t, scn);
      assert RowsIn(mid.db.tables, t) == before + front;
      assert (before + front) + added == before + (front + added);
      assert front + [] == front;
    }
  }

  lemma {:induction false} DemoIsLoaded(w: World, sid: nat, demo: seq<DemoTable>, order: HashOrder)
    requires DemoOk(demo) && Idle(w) && w.db.catalog == map[]
    ensures Loaded(w, Play(w, DemoSteps(sid, demo, order)), demo)
    decreases |demo|
  {
    hide Next, Lower, Tuples, Accepted, Idle, Loaded;
    if demo == [] {
      NothingLoaded(w, order);
    } else {
      var n := |demo| - 1;
      var front, last := demo[..n], demo[n];
      DemoIsLoaded(w, sid, front, order);
      var mid := Play(w, DemoSteps(sid, front, order));
      NotYetCreated(w, mid, demo);
      PlayTwo(w, DemoSteps(sid, front, order), Run(sid, CreateTable(last.name, last.schema), order),
              Run(sid, InsertInto(last.name, last.rows), order));
      OneTableLoaded(mid, sid, last, order);
      LoadedOneMore(w, mid, Play(w, DemoSteps(sid, demo, order)), demo);
    }
  }

  lemma NothingLoaded(w: World, order: HashOrder)
    requires Idle(w) && w.db.catalog == map[]
    ensures Loaded(w, Play(w, []), [])
  {
  }

  lemma NotYetCreated(w: World, mid: World, demo: seq<DemoTable>)
    requires DemoOk(demo) && demo != [] && Loaded(w, mid, demo[..|demo| - 1])
    ensures Idle(mid) && demo[|demo| - 1].name !in mid.db.catalog
  {
    hide Lower;
  }

  lemma CreateKeepsRows(w: World, sid: nat, t: string, schema: Schema, order: HashOrder)
    requires Idle(w) && Lower(t) == t && (t in w.db.catalog ==> t in w.db.tables)
    ensures var after := Next(w, Run(sid, CreateTable(t, schema), order));
            && after.db.tx == w.db.tx && Idle(after)
            && t in after.db.catalog && t in after.db.tables
            && after.db.tables[t] == RowsIn(w.db.tables, t)
            && (t !in w.db.catalog ==> after.db.catalog[t] == schema)
  {
    hide Lower;
    assert w.SessionOf(sid).current == None;
    IdleSession(w, Next(w, Run(sid, CreateTable(t, schema), order)), sid);
  }

  /** Creating a table keeps the rows that recovery and the script have left under its name. */
  lemma RecreatedTable(w: World, sid: nat, demo: seq<DemoTable>, t: string, schema: Schema, order: HashOrder)
    requires DemoOk(demo) && Lower(t) == t
    ensures var db, after := Booted(w.db.tx.log), Recreated(w, sid, demo, t, schema, order);
            && after.db.tx == db.tx && Idle(after)
            && t in after.db.catalog && t in after.db.tables
            && after.db.tables[t] == RowsIn(db.tables, t) + DemoRows(demo, t, db.tx.scn)
            && (!IsDemo(demo, t) ==> after.db.catalog[t] == schema)
  {
    hide Booted, Lower, IsDemo, DemoOk, DemoRows, Play;
    BootedCatalog(w.db.tx.log);
    DemoIsLoaded(Next(w, Crash), sid, demo, order);
    CreateKeepsRows(Restarted(w, sid, demo, order), sid, t, schema, order);
  }

  // Queries.

  /** The rows a session is sent for a scan of t. */
  function Scanned(w: World, sid: nat, t: string, order: HashOrder): Result<seq<Tuple>> {
    match ResponseTo(w, Run(sid, Query(Scan(t, None)), order))
    case Err(e) => Err(e)
    case Ok(r) => if r.Answer? then Ok(r.result.rows) else Ok([])
  }

  lemma {:induction false} SelectAll<T>(s: seq<T>, p: T -> bool)
    requires forall x | x in s :: p(x)
    ensures Select(s, p) == s
  {
    if s != [] {
      SelectAll(s[1..], p);
    }
  }

  /** A scan answers with the visible rows of its table. */
  lemma ScanAnswers(w: World, sid: nat, t: string, order: HashOrder)
    requires t in w.db.catalog && t in w.db.tables
    ensures Scanned(w, sid, t, order) ==
            Ok(ScanStream(Reader(w.db, w.SessionOf(sid).current, order), t, 0).rows)
  {
    QueryResponse(w, sid, Scan(t, None), order);
    hide ScanStream, Qualify;
    var ctx := Reader(w.db, w.SessionOf(sid).current, order);
    assert Buildable(Scan(t, None), w.db.catalog) == Ok(());
    assert PlanSchema(Scan(t, None), w.db.catalog).Ok?;
    assert Denote(Scan(t, None), w.db.catalog, ctx) == Started(ScanStream(ctx, t, 0));
    assert ScanStream(ctx, t, 0).end == Done by {
      ScanEnds(ctx, t);
    }
  }

  lemma ScanEnds(ctx: ExecutionContext, t: string)
    requires t in ctx.tables
    ensures ScanStream(ctx, t, 0) == Stream(ctx.VisibleRows(ctx.tables[t]), Done)
  {
    assert ctx.tables[t][0..] == ctx.tables[t];
  }

  /** A scan answers with the rows its session sees. */
  lemma ScanAnswersVisible(w: World, sid: nat, t: string, order: HashOrder)
    requires t in w.db.catalog && t in w.db.tables
    ensures var ctx := Reader(w.db, w.SessionOf(sid).current, order);
            Scanned(w, sid, t, order) == Ok(Select(w.db.tables[t], (row: Tuple) => ctx.Sees(row)))
  {
    hide Scanned, ScanStream, IsVisible;
    var ctx := Reader(w.db, w.SessionOf(sid).current, order);
    ScanAnswers(w, sid, t, order);
    ScanEnds(ctx, t);
    VisibleIsSelect(ctx, w.db.tables[t]);
  }

  lemma {:induction false} DemoRowsAreSystem(demo: seq<DemoTable>, t: string, scn: nat)
    ensures forall row | row in DemoRows(demo, t, scn) :: row.txId == None
    decreases |demo|
  {
    hide Accepted;
    if demo != [] {
      DemoRowsAreSystem(demo[..|demo| - 1], t, scn);
    }
  }

  /** After a restart a session is sent the visible ones among the recovered rows, then the rows of the
      boot script. */
  lemma RestartAnswers(w: World, sid: nat, reader: nat, demo: seq<DemoTable>, t: string, schema: Schema, order: HashOrder)
    requires DemoOk(demo) && Lower(t) == t
    ensures var db := Booted(w.db.tx.log);
            Scanned(Recreated(w, sid, demo, t, schema, order), reader, t, order) ==
            Ok(Select(RowsIn(db.tables, t), (row: Tuple) => IsVisible(db.tx.vis, row.txId, None, db.tx.scn))
               + DemoRows(demo, t, db.tx.scn))
  {
    hide Booted, Scanned, Recreated, Lower, DemoRows, DemoOk, IsDemo;
    var db, after := Booted(w.db.tx.log), Recreated(w, sid, demo, t, schema, order);
    RecreatedTable(w, sid, demo, t, schema, order);
    ScanAnswersVisible(after, reader, t, order);
    var ctx := Reader(after.db, after.SessionOf(reader).current, order);
    var rows, more := RowsIn(db.tables, t), DemoRows(demo, t, db.tx.scn);
    var sees := (row: Tuple) => ctx.Sees(row);
    SelectConcat(rows, more, sees);
    DemoRowsAreSystem(demo, t, db.tx.scn);
    SelectAll(more, sees);
    SelectAgree(rows, sees, (row: Tuple) => IsVisible(db.tx.vis, row.txId, None, db.tx.scn));
  }

  /** Whatever a first-generation server was doing when it crashed, after the restart a client that selects
      from table t, created again if need be, is sent exactly the rows that committed transactions had
      inserted into t, in insertion order, then the rows of the boot script. */
  lemma RestartAnswersCommitted(steps: seq<Step>, sid: nat, reader: nat, demo: seq<DemoTable>, t: string, schema: Schema, order: HashOrder)
    requires NoCrash(steps) && DemoOk(demo) && Lower(t) == t
    ensures var w, history := Play(Fresh(), steps), History(Fresh(), steps);
            Scanned(Recreated(w, sid, demo, t, schema, order), reader, t, order) ==
            Ok(Select(LoggedRows(history, t), (row: Tuple) => CommittedRow(history, row))
               + DemoRows(demo, t, Booted(w.db.tx.log).tx.scn))
  {
    hide Play, Fresh, Booted, History, LoggedRows, CommittedRow, Scanned, Recreated, Lower, IsVisible, DemoRows, DemoOk;
    var w := Play(Fresh(), steps);
    var db := Booted(w.db.tx.log);
    RestartAnswers(w, sid, reader, demo, t, schema, order);
    CrashKeepsExactlyCommitted(steps, t);
    var rows := RowsIn(db.tables, t);
    forall row | row in rows ensures IsVisible(db.tx.vis, row.txId, None, db.tx.scn) {
      FirstSelectSeesRecoveredRows(steps, t, row, None);
    }
    SelectAll(rows, (row: Tuple) => IsVisible(db.tx.vis, row.txId, None, db.tx.scn));
  }

  /** In a disciplined run a crash costs a client nothing but the rows inserted outside of transactions: what
      it is sent after the restart is what a session without a transaction was sent before, without those
      rows, in the same order and with the same values; then the rows of the boot script, loaded anew. */
  lemma CrashLosesOnlySystemRows(steps: seq<Step>, before: nat, sid: nat, after: nat, demo: seq<DemoTable>, t: string,
                                 schema: Schema, order: HashOrder)
    requires DisciplinedRun(Fresh(), steps) && DemoOk(demo) && Lower(t) == t
    requires var w := Play(Fresh(), steps);
             t in w.db.catalog && t in w.db.tables && w.SessionOf(before).current == None
    ensures var w := Play(Fresh(), steps);
            && Scanned(w, before, t, order).Ok?
            && Scanned(Recreated(w, sid, demo, t, schema, order), after, t, order) ==
               Ok(Select(Scanned(w, before, t, order).value, (row: Tuple) => row.txId.Some?)
                  + DemoRows(demo, t, Booted(w.db.tx.log).tx.scn))
  {
    hide Play, Fresh, Booted, History, LoggedRows, CommittedRow, Scanned, Recreated, Lower, WalOk, LiveOk, DemoRows, DemoOk;
    var w := Play(Fresh(), steps);
    FreshIsConsistent();
    DisciplinedRunKeeps(Fresh(), steps);
    DisciplinedPrefix(Fresh(), steps, 0);
    RestartAnswersCommitted(steps, sid, after, demo, t, schema, order);
    CrashKeepsExactlyCommitted(steps, t);
    RecoveredIsCommittedPartOfLive(steps, t);
    ScanAnswers(w, before, t, order);
    FreshScanDeliversCommitted(w, None, order, t);
    SelectTwice(w.db.tables[t],
                (row: Tuple) => row.txId.None? || row.txId == None || CommittedNow(w.db.tx, row),
                (row: Tuple) => row.txId.Some?,
                (row: Tuple) => CommittedNow(w.db.tx, row));
  }
}
