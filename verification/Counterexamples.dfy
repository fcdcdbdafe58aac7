/** Runs of the server, from its first start, in which transactions or recovery go wrong. */
module Counterexamples {
  import opened Wrappers
  import opened Storage
  import opened Catalog
  import opened Planner
  import opened Transactions
  import opened Sequences
  import opened Meaning
  import opened Handler
  import opened Recovery
  import opened Server
  import opened Lifecycle
  import opened WriteAhead
  import opened Durability
  import opened StoredRows
  import opened Isolation
  import opened Restart
  import opened Generations
  import opened CrashSafety
  import IdReuse

  // An undisciplined rollback.

  /** Undo by a stale position. Two transactions have inserted one row each, the first rolls back, a system
      row arrives, the second rolls back: the system row is deleted and the row of the second one stays. */
  lemma StaleUndoDeletes(db: Db, t: string, a: nat, b: nat, first: Tuple, second: Tuple, values: seq<Value>)
    requires t in db.tables && a != b
    requires db.tables[t] == [first, second] && first.txId == Some(a) && second.txId == Some(b)
    requires db.tx.UndoOf(a) == [UndoInsert(t, 0)] && db.tx.UndoOf(b) == [UndoInsert(t, 1)]
    ensures var one := RolledBackDb(db, a);
            && t in one.tables
            && var two := InsertRow(one, t, None, values);
               var three := RolledBackDb(two, b);
            && t in three.tables
            && two.tables[t] == [second, Tuple(values, None, db.tx.scn)]
            && three.tables[t] == [second]
  {
    UndoSingle(db.tables, t, 0);
    var one := RolledBackDb(db, a);
    assert RemoveAt([first, second], 0) == [second];
    assert one.tables[t] == [second];
    assert one.tx.UndoOf(b) == [UndoInsert(t, 1)];
    var two := InsertRow(one, t, None, values);
    var system := Tuple(values, None, db.tx.scn);
    assert two.tables[t] == [second, system];
    UndoSingle(two.tables, t, 1);
    assert RemoveAt([second, system], 1) == [second];
  }

  lemma UndoSingle(tables: Tables, t: string, i: nat)
    requires t in tables && i < |tables[t]|
    ensures UndoAll(tables, [UndoInsert(t, i)]) == tables[t := RemoveAt(tables[t], i)]
  {
    var recs := [UndoInsert(t, i)];
    assert recs[..0] == [];
    assert UndoAll(UndoOne(tables, recs[0]), []) == UndoOne(tables, recs[0]);
  }

  /** Two clients insert one row each in transactions of their own. */
  function TwoOpen(order: HashOrder): seq<Step> {
    [Run(1, CreateTable("t", OneColumn()), order), Run(1, Begin, order), Run(2, Begin, order),
     Run(1, InsertInto("t", [[Const(Int(1))]]), order), Run(2, InsertInto("t", [[Const(Int(2))]]), order)]
  }

  /** The first one rolls back, a third client inserts a row outside of transactions. */
  function FirstGone(order: HashOrder): seq<Step> {
    TwoOpen(order) + [Run(1, Rollback, order), Run(3, InsertInto("t", [[Const(Int(3))]]), order)]
  }

  lemma OneRowInserted(db: Db, tx: Option<nat>, v: i64)
    requires "t" in db.tables
    ensures InsertRows(db, "t", 1, tx, [[Const(Int(v))]], 0) == (InsertRow(db, "t", tx, [Int(v)]), Ok(1))
  {
    var row: seq<Expr> := [Const(Int(v))];
    var rows: seq<seq<Expr>> := [row];
    assert row[1..] == [];
    assert EvalAll([], [], Schema([])) == Ok([]);
    assert Eval(Const(Int(v)), [], Schema([])) == Ok(Int(v));
    assert [Int(v)] + [] == [Int(v)];
    assert EvalAll(row, [], Schema([])) == Ok([Int(v)]);
    assert rows[1..] == [];
    assert InsertRows(InsertRow(db, "t", tx, [Int(v)]), "t", 1, tx, [], 1).1 == Ok(1);
  }

  /** An INSERT of one integer into table t. */
  lemma InsertStep(w: World, sid: nat, v: i64, order: HashOrder)
    requires "t" in w.db.tables && "t" in w.db.catalog && w.db.catalog["t"] == OneColumn()
    ensures var after := Next(w, Run(sid, InsertInto("t", [[Const(Int(v))]]), order));
            && after.db == InsertRow(w.db, "t", w.SessionOf(sid).current, [Int(v)])
            && after.sessions == w.sessions[sid := w.SessionOf(sid)]
  {
    hide InsertRows;
    assert Lower("t") == "t";
    OneRowInserted(w.db, w.SessionOf(sid).current, v);
  }

  lemma TwoBegun(order: HashOrder)
    ensures var steps := TwoOpen(order);
            var w := Next(Next(Next(Fresh(), steps[0]), steps[1]), steps[2]);
            && w.db.tables == map["t" := []] && w.db.catalog == map["t" := OneColumn()]
            && w.db.tx == Opened([]).Begun().Begun()
            && w.SessionOf(1).current == Some(1) && w.SessionOf(2).current == Some(2) && w.SessionOf(3).current == None
  {
    hide QueryResult, InsertRows;
    var w := Next(Fresh(), TwoOpen(order)[0]);
    assert Lower("t") == "t";
    assert w.db.tables == map["t" := []] && w.db.catalog == map["t" := OneColumn()];
    assert w.SessionOf(1).current == None && w.SessionOf(2).current == None;
    var one := Next(w, TwoOpen(order)[1]);
    assert one.db.tx == Opened([]).Begun() && one.SessionOf(2).current == None;
  }

  lemma TwoInserted(w: World, order: HashOrder)
    requires w.db.tables == map["t" := []] && w.db.catalog == map["t" := OneColumn()]
    requires w.db.tx == Opened([]).Begun().Begun()
    requires w.SessionOf(1).current == Some(1) && w.SessionOf(2).current == Some(2) && w.SessionOf(3).current == None
    ensures var after := Next(Next(w, TwoOpen(order)[3]), TwoOpen(order)[4]);
            && after.db.tables == map["t" := [Tuple([Int(1)], Some(1), 0), Tuple([Int(2)], Some(2), 0)]]
            && after.db.catalog == w.db.catalog && after.db.tx.vis == w.db.tx.vis && after.db.tx.scn == 0
            && after.db.tx.UndoOf(1) == [UndoInsert("t", 0)] && after.db.tx.UndoOf(2) == [UndoInsert("t", 1)]
            && after.SessionOf(1).current == Some(1) && after.SessionOf(2).current == Some(2) && after.SessionOf(3).current == None
  {
    InsertStep(w, 1, 1, order);
    InsertStep(Next(w, TwoOpen(order)[3]), 2, 2, order);
    hide Execute;
    var mid := Next(w, TwoOpen(order)[3]);
    assert mid.SessionOf(2).current == Some(2);
    assert w.db.tx.UndoOf(1) == [] && w.db.tx.UndoOf(2) == [];
    var r1, r2 := Tuple([Int(1)], Some(1), 0), Tuple([Int(2)], Some(2), 0);
    assert TwoOpen(order)[3] == Run(1, InsertInto("t", [[Const(Int(1))]]), order);
    assert mid.db == InsertRow(w.db, "t", Some(1), [Int(1)]);
    assert [] + [r1] == [r1];
    assert mid.db.tables == map["t" := [r1]];
    assert [r1] + [r2] == [r1, r2];
  }

  lemma OneMoreStep(w: World, steps: seq<Step>, step: Step)
    ensures Play(w, steps + [step]) == Next(Play(w, steps), step)
  {
    assert (steps + [step])[..|steps|] == steps;
  }

  lemma PlayFive(w: World, a: Step, b: Step, c: Step, d: Step, e: Step)
    ensures Play(w, [a, b, c, d, e]) == Next(Next(Next(Next(Next(w, a), b), c), d), e)
  {
    hide Next;
    IdReuse.PlayFour(w, a, b, c, d);
    OneMoreStep(w, [a, b, c, d], e);
    assert [a, b, c, d] + [e] == [a, b, c, d, e];
  }

  lemma TwoAreOpen(order: HashOrder)
    ensures var w := Play(Fresh(), TwoOpen(order));
            && w.db.tables == map["t" := [Tuple([Int(1)], Some(1), 0), Tuple([Int(2)], Some(2), 0)]]
            && w.db.catalog == map["t" := OneColumn()] && w.db.tx.vis == Opened([]).Begun().Begun().vis && w.db.tx.scn == 0
            && w.db.tx.UndoOf(1) == [UndoInsert("t", 0)] && w.db.tx.UndoOf(2) == [UndoInsert("t", 1)]
            && w.SessionOf(1).current == Some(1) && w.SessionOf(2).current == Some(2) && w.SessionOf(3).current == None
  {
    hide Next, Fresh;
    var steps := TwoOpen(order);
    TwoBegun(order);
    TwoInserted(Next(Next(Next(Fresh(), steps[0]), steps[1]), steps[2]), order);
    PlayFive(Fresh(), steps[0], steps[1], steps[2], steps[3], steps[4]);
    assert steps == [steps[0], steps[1], steps[2], steps[3], steps[4]];
  }

  /** What rolling both back does, from the state with both open. */
  lemma BothRolledBack(w: World, order: HashOrder)
    requires w.db.tables == map["t" := [Tuple([Int(1)], Some(1), 0), Tuple([Int(2)], Some(2), 0)]]
    requires w.db.catalog == map["t" := OneColumn()] && w.db.tx.vis == Opened([]).Begun().Begun().vis && w.db.tx.scn == 0
    requires w.db.tx.UndoOf(1) == [UndoInsert("t", 0)] && w.db.tx.UndoOf(2) == [UndoInsert("t", 1)]
    requires w.SessionOf(1).current == Some(1) && w.SessionOf(2).current == Some(2) && w.SessionOf(3).current == None
    ensures var mid := Next(Next(w, Run(1, Rollback, order)), Run(3, InsertInto("t", [[Const(Int(3))]]), order));
            var end := Next(mid, Run(2, Rollback, order));
            && mid.db.catalog == w.db.catalog == end.db.catalog && "t" in mid.db.tables && "t" in end.db.tables
            && mid.db.tables["t"] == [Tuple([Int(2)], Some(2), 0), Tuple([Int(3)], None, 0)]
            && end.db.tables["t"] == [Tuple([Int(2)], Some(2), 0)]
            && mid.SessionOf(3).current == None && end.SessionOf(3).current == None
            && !(2 in mid.db.tx.vis.statuses && mid.db.tx.vis.statuses[2] == Committed)
            && !(2 in end.db.tx.vis.statuses && end.db.tx.vis.statuses[2] == Committed)
  {
    hide UndoAll, InsertRows, Lower, QueryResult, RemoveAt;
    var r1, r2 := Tuple([Int(1)], Some(1), 0), Tuple([Int(2)], Some(2), 0);
    StaleUndoDeletes(w.db, "t", 1, 2, r1, r2, [Int(3)]);
    var one := Next(w, Run(1, Rollback, order));
    assert one.db == RolledBackDb(w.db, 1) && one.SessionOf(3).current == None && one.SessionOf(2).current == Some(2);
    InsertStep(one, 3, 3, order);
  }

  /** A run in which one client's ROLLBACK deletes a row that another client had inserted and could read. */
  lemma UndisciplinedRollbackDeletesInnocentRow(order: HashOrder)
    ensures var w := Play(Fresh(), FirstGone(order));
            && Scanned(w, 3, "t", order) == Ok([Tuple([Int(3)], None, 0)])
            && Scanned(Next(w, Run(2, Rollback, order)), 3, "t", order) == Ok([])
            && RowsIn(Next(w, Run(2, Rollback, order)).db.tables, "t") == [Tuple([Int(2)], Some(2), 0)]
  {
    hide Next, Fresh, Scanned;
    var w := Play(Fresh(), TwoOpen(order));
    TwoAreOpen(order);
    BothRolledBack(w, order);
    OneMoreStep(Fresh(), TwoOpen(order), Run(1, Rollback, order));
    OneMoreStep(Fresh(), TwoOpen(order) + [Run(1, Rollback, order)], Run(3, InsertInto("t", [[Const(Int(3))]]), order));
    assert FirstGone(order) ==
           (TwoOpen(order) + [Run(1, Rollback, order)]) + [Run(3, InsertInto("t", [[Const(Int(3))]]), order)];
    var mid := Play(Fresh(), FirstGone(order));
    var end := Next(mid, Run(2, Rollback, order));
    ScanAnswersVisible(mid, 3, "t", order);
    ScanAnswersVisible(end, 3, "t", order);
    var r2, r3 := Tuple([Int(2)], Some(2), 0), Tuple([Int(3)], None, 0);
    var a, b := Reader(mid.db, None, order), Reader(end.db, None, order);
    assert [r2] + [r3] == [r2, r3] && [] + [r3] == [r3];
    SelectConcat([r2], [r3], (row: Tuple) => a.Sees(row));
    SelectOne(r2, (row: Tuple) => a.Sees(row));
    SelectOne(r3, (row: Tuple) => a.Sees(row));
    SelectOne(r2, (row: Tuple) => b.Sees(row));
  }

  // A committed row lost to a reissued id.

  function OneColumn(): Schema {
    Schema([Column("a", IntType)])
  }

  /** A client creates a table and commits one row in it. */
  function CommitOneRow(order: HashOrder): seq<Step> {
    [Run(1, CreateTable("t", OneColumn()), order),
     Run(1, Begin, order),
     Run(1, InsertInto("t", [[Const(Int(7))]]), order),
     Run(1, Commit, order)]
  }

  /** After a restart another client begins a transaction and rolls it back, and the server restarts again. */
  function RollBackAfterRestart(order: HashOrder): seq<Step> {
    [Crash, Run(2, Begin, order), Run(2, Rollback, order), Crash]
  }

  lemma CreatedAndBegun(order: HashOrder)
    ensures var w := Next(Next(Fresh(), CommitOneRow(order)[0]), CommitOneRow(order)[1]);
            && w.db.tables == map["t" := []] && w.db.catalog == map["t" := OneColumn()]
            && w.db.tx == Opened([]).Begun() && w.SessionOf(1).current == Some(1)
  {
    hide QueryResult;
    var w := Next(Fresh(), CommitOneRow(order)[0]);
    assert Lower("t") == "t";
    assert w.db.tables == map["t" := []] && w.db.catalog == map["t" := OneColumn()];
  }

  lemma InsertedAndCommitted(w: World, order: HashOrder)
    requires w.db.tables == map["t" := []] && w.db.catalog == map["t" := OneColumn()]
    requires w.db.tx == Opened([]).Begun() && w.SessionOf(1).current == Some(1)
    ensures Next(Next(w, CommitOneRow(order)[2]), CommitOneRow(order)[3]).db.tx.log ==
            [RedoBegin(1, 0), RedoInsert(1, 0, "t", [Int(7)], 0), RedoCommit(1, 1)]
  {
    hide QueryResult, InsertRows;
    assert Lower("t") == "t";
    OneRowInserted(w.db, Some(1), 7);
    var w3 := Next(w, CommitOneRow(order)[2]);
    assert w3.db == InsertRow(w.db, "t", Some(1), [Int(7)]);
    assert w3.db.tx.buffer == [RedoBegin(1, 0), RedoInsert(1, 0, "t", [Int(7)], 0)];
    var w4 := Next(w3, CommitOneRow(order)[3]);
    assert w4.db.tx.log == w3.db.tx.log + (w3.db.tx.buffer + [RedoCommit(1, 1)]);
  }

  lemma LogOfOneCommit(order: HashOrder)
    ensures Play(Fresh(), CommitOneRow(order)).db.tx.log ==
            [RedoBegin(1, 0), RedoInsert(1, 0, "t", [Int(7)], 0), RedoCommit(1, 1)]
  {
    hide Next, Play, Fresh;
    var steps := CommitOneRow(order);
    CreatedAndBegun(order);
    InsertedAndCommitted(Next(Next(Fresh(), steps[0]), steps[1]), order);
    IdReuse.PlayFour(Fresh(), steps[0], steps[1], steps[2], steps[3]);
    assert steps == [steps[0], steps[1], steps[2], steps[3]];
  }

  function TheRow(): Tuple {
    Tuple([Int(7)], Some(1), 0)
  }

  lemma LoggedOnce(log: seq<RedoRecord>)
    requires |log| >= 3 && log[..3] == [RedoBegin(1, 0), RedoInsert(1, 0, "t", [Int(7)], 0), RedoCommit(1, 1)]
    requires forall i | 3 <= i < |log| :: !log[i].RedoInsert?
    ensures LoggedRows(log, "t") == [TheRow()]
    decreases |log|
  {
    if |log| > 3 {
      var front := log[..|log| - 1];
      assert front[..3] == log[..3];
      LoggedOnce(front);
    } else {
      assert log == log[..3];
      assert log[..2] == [log[0], log[1]] && log[..2][..1] == [log[0]] && log[..2][..1][..0] == [];
      assert LoggedRows([], "t") == [] && LoggedRows([log[0]], "t") == [];
      assert LoggedRows(log[..2], "t") == [TheRow()];
    }
  }

  lemma LogAfterRestart(w: World, order: HashOrder)
    requires w.db.tx.log != []
    ensures var again := RollBackAfterRestart(order);
            var log := Play(w, again).db.tx.log;
            && |log| == |w.db.tx.log| + 2 && log[..|w.db.tx.log|] == w.db.tx.log
            && log[|log| - 2].RedoBegin? && log[|log| - 1].RedoRollback? && log[|log| - 1].txId == 1
            && Play(w, again).db == Booted(log)
  {
    hide RolledForward, UndoAll;
    var again := RollBackAfterRestart(order);
    var c1 := Next(w, again[0]);
    var c2 := Next(c1, again[1]);
    var c3 := Next(c2, again[2]);
    IdReuse.PlayFour(w, again[0], again[1], again[2], again[3]);
    assert c1.db.tx.nextTxId == 1 && c1.db.tx.log == w.db.tx.log && c1.db.tx.buffer == [];
    assert c3.db.tx.log == w.db.tx.log + ([RedoBegin(1, c1.db.tx.scn)] + [RedoRollback(1, c1.db.tx.scn)]);
  }

  lemma RowSurvivesFirstRestart(order: HashOrder)
    ensures RowsIn(Next(Play(Fresh(), CommitOneRow(order)), Crash).db.tables, "t") == [TheRow()]
  {
    hide Booted, Play, LoggedRows, CommitOneRow;
    var log := Play(Fresh(), CommitOneRow(order)).db.tx.log;
    LogOfOneCommit(order);
    LoggedOnce(log);
    BootedRows(log, "t");
    assert log[2].RedoCommit? && log[2].txId == 1;
    SelectOne(TheRow(), (row: Tuple) => Kept(log, row));
  }

  lemma RowIsGoneAfterSecond(order: HashOrder)
    ensures RowsIn(Play(Play(Fresh(), CommitOneRow(order)), RollBackAfterRestart(order)).db.tables, "t") == []
  {
    hide Booted, Play, LoggedRows, CommitOneRow, RollBackAfterRestart;
    var w := Play(Fresh(), CommitOneRow(order));
    LogOfOneCommit(order);
    LogAfterRestart(w, order);
    var later := Play(w, RollBackAfterRestart(order)).db.tx.log;
    LoggedOnce(later);
    BootedRows(later, "t");
    assert later[4].RedoRollback? && later[4].txId == 1;
    SelectOne(TheRow(), (row: Tuple) => Kept(later, row));
  }

  /** A committed row survives the first restart and is gone after the second, because the transaction
      rolled back in between was given the id of the one that had committed. */
  lemma CommittedRowIsLost(order: HashOrder)
    ensures var w := Play(Fresh(), CommitOneRow(order));
            && RowsIn(Next(w, Crash).db.tables, "t") == [TheRow()]
            && RowsIn(Play(w, RollBackAfterRestart(order)).db.tables, "t") == []
  {
    hide *;
    RowSurvivesFirstRestart(order);
    RowIsGoneAfterSecond(order);
  }

  // A committed row hidden by a reissued id.

  /** The restarted server, its boot script run, with table t created again. */
  function Reopened(demo: seq<DemoTable>, order: HashOrder): World {
    Recreated(Play(Fresh(), CommitOneRow(order)), 2, demo, "t", OneColumn(), order)
  }

  lemma ReopenedState(demo: seq<DemoTable>, order: HashOrder)
    requires DemoOk(demo) && !IsDemo(demo, "t")
    ensures var w := Reopened(demo, order);
            && "t" in w.db.catalog && "t" in w.db.tables && w.db.tables["t"] == [TheRow()]
            && w.db.tx.nextTxId == 1 && Idle(w)
            && IsVisible(w.db.tx.vis, Some(1), None, w.db.tx.scn)
  {
    hide Play, Fresh, Booted, CommitOneRow, Recreated, IsVisible, DemoOk, IsDemo, DemoRows, Idle, RollBackAfterRestart;
    var first := Play(Fresh(), CommitOneRow(order));
    assert Lower("t") == "t";
    RecreatedTable(first, 2, demo, "t", OneColumn(), order);
    BootedTx(first.db.tx.log);
    RowSurvivesFirstRestart(order);
    NoDemoRows(demo, "t", Booted(first.db.tx.log).tx.scn);
    assert NoCrash(CommitOneRow(order)) by {
      CommitsWithoutCrash(order);
    }
    FirstSelectSeesRecoveredRows(CommitOneRow(order), "t", TheRow(), None);
  }

  /** One crash is enough. A client reads a recovered row; another client begins a transaction, which is
      given the id of the one that had committed the row; the row is gone from every answer. */
  lemma BeginHidesCommittedRow(demo: seq<DemoTable>, order: HashOrder)
    requires DemoOk(demo) && !IsDemo(demo, "t")
    ensures var w := Reopened(demo, order);
            && Scanned(w, 3, "t", order) == Ok([TheRow()])
            && Scanned(Next(w, Run(2, Begin, order)), 3, "t", order) == Ok([])
  {
    hide Reopened, Scanned, DemoOk, IsDemo;
    var w := Reopened(demo, order);
    ReopenedState(demo, order);
    assert w.SessionOf(2).current == None && w.SessionOf(3).current == None;
    var after := Next(w, Run(2, Begin, order));
    assert after.SessionOf(3).current == None && after.db.tables == w.db.tables && after.db.catalog == w.db.catalog;
    ScanAnswersVisible(w, 3, "t", order);
    ScanAnswersVisible(after, 3, "t", order);
    var a, b := Reader(w.db, None, order), Reader(after.db, None, order);
    SelectOne(TheRow(), (row: Tuple) => a.Sees(row));
    SelectOne(TheRow(), (row: Tuple) => b.Sees(row));
  }

  /** After a restart one client begins a transaction and another one commits, which writes both to disk. */
  function BeginIsFlushed(order: HashOrder): seq<Step> {
    [Crash, Run(2, Begin, order), Run(3, Begin, order), Run(3, Commit, order)]
  }

  /** From a restarted server: two transactions begun, the second one committed. */
  lemma SecondCommits(w: World, order: HashOrder)
    requires w.db.tx.nextTxId == 1 && w.db.tx.buffer == [] && w.sessions == map[]
    ensures var scn := w.db.tx.scn;
            Next(Next(Next(w, Run(2, Begin, order)), Run(3, Begin, order)), Run(3, Commit, order)).db.tx.log ==
            w.db.tx.log + [RedoBegin(1, scn), RedoBegin(2, scn), RedoCommit(2, scn + 1)]
  {
    var scn := w.db.tx.scn;
    var one := Next(w, Run(2, Begin, order));
    assert one.db.tx == w.db.tx.Begun() && one.SessionOf(3).current == None;
    var two := Next(one, Run(3, Begin, order));
    assert two.db.tx == one.db.tx.Begun() && two.SessionOf(3).current == Some(2);
    assert two.db.tx.buffer == [RedoBegin(1, scn), RedoBegin(2, scn)];
    assert [RedoBegin(1, scn), RedoBegin(2, scn)] + [RedoCommit(2, scn + 1)] ==
           [RedoBegin(1, scn), RedoBegin(2, scn), RedoCommit(2, scn + 1)];
  }

  lemma LogWithBegin(w: World, order: HashOrder)
    ensures var log := Play(w, BeginIsFlushed(order)).db.tx.log;
            && |log| == |w.db.tx.log| + 3 && log[..|w.db.tx.log|] == w.db.tx.log
            && log[|log| - 3].RedoBegin? && log[|log| - 3].txId == 1
            && log[|log| - 2].RedoBegin? && log[|log| - 2].txId == 2
            && log[|log| - 1].RedoCommit? && log[|log| - 1].txId == 2
  {
    hide Booted, Execute, Play;
    BootedTx(w.db.tx.log);
    SecondCommits(Next(w, Crash), order);
    hide Next;
    IdReuse.PlayFour(w, Crash, Run(2, Begin, order), Run(3, Begin, order), Run(3, Commit, order));
  }

  /** The log keeps the row, and recovery brings it back into its table, but nobody is shown it: its own
      id was begun again and had not ended when the server crashed. */
  lemma RecoveredRowStaysHidden(demo: seq<DemoTable>, order: HashOrder)
    requires DemoOk(demo) && !IsDemo(demo, "t")
    ensures var w := Play(Play(Fresh(), CommitOneRow(order)), BeginIsFlushed(order));
            && IdReuse.Unanimous(w.db.tx.log)
            && RowsIn(Next(w, Crash).db.tables, "t") == [TheRow()]
            && Scanned(Recreated(w, 2, demo, "t", OneColumn(), order), 3, "t", order) == Ok([])
  {
    hide Booted, Play, LoggedRows, CommitOneRow, BeginIsFlushed, Scanned, Recreated, DemoOk, IsDemo, DemoRows, CommitsIn, RollsBackIn;
    var first := Play(Fresh(), CommitOneRow(order));
    var w := Play(first, BeginIsFlushed(order));
    var log := w.db.tx.log;
    LogOfOneCommit(order);
    LogWithBegin(first, order);
    LoggedOnce(log);
    HiddenFates(log);
    BootedRows(log, "t");
    SelectOne(TheRow(), (row: Tuple) => Kept(log, row));
    assert Lower("t") == "t";
    RestartShows(w, 2, 3, demo, "t", OneColumn(), order);
    SelectOne(TheRow(), (row: Tuple) => RowShown(log, row));
    NoDemoRows(demo, "t", Booted(log).tx.scn);
  }

  lemma HiddenFates(log: seq<RedoRecord>)
    requires |log| == 6 && log[..3] == [RedoBegin(1, 0), RedoInsert(1, 0, "t", [Int(7)], 0), RedoCommit(1, 1)]
    requires log[3].RedoBegin? && log[3].txId == 1 && log[4].RedoBegin? && log[4].txId == 2
    requires log[5].RedoCommit? && log[5].txId == 2
    ensures CommitsIn(log, 1) && !RollsBackIn(log, 1) && !LastIsCommit(log, 1) && IdReuse.Unanimous(log)
  {
    assert log[0] == log[..3][0] && log[1] == log[..3][1] && log[2] == log[..3][2];
    assert CommitsIn(log, 1) && !RollsBackIn(log, 1);
    assert IdReuse.GoesOnToCommit(log[2..], 1);
    assert log[..5][..4] == log[..4];
    assert !LastIsCommit(log[..4], 1);
    assert !LastIsCommit(log[..5], 1);
    hide CommitsIn, RollsBackIn;
    forall i | 0 <= i < |log| && log[i].RedoInsert?
      ensures IdReuse.GoesOnToCommit(log[i + 1..], log[i].txId) <==> Kept(log, IdReuse.RowOf(log[i]))
    {
      assert i == 1;
    }
  }

  // A table created again with more columns than its recovered rows have.

  function TwoColumns(): Schema {
    Schema([Column("a", IntType), Column("b", IntType)])
  }

  function SelectB(): LogicalPlan {
    Project(Scan("t", None), [(ColRef("b"), "b")])
  }

  lemma SecondColumn(catalog: CatalogMap)
    requires "t" in catalog && catalog["t"] == TwoColumns()
    ensures PlanSchema(Scan("t", None), catalog).Ok?
    ensures PlanSchema(Scan("t", None), catalog).value.FindColIdx("b") == Some(1)
  {
    var schema := PlanSchema(Scan("t", None), catalog).value;
    assert schema.columns[0].name == "t.a" && schema.columns[1].name == "t.b";
    assert "t.a"[..2] == "t." && "t.b"[..2] == "t.";
    assert BaseName("t.") == "";
    assert BaseName("t.a") == [] + ['a'] && BaseName("t.b") == [] + ['b'];
    assert !Matches(schema.columns[0], "b") && Matches(schema.columns[1], "b");
  }

  lemma ProjectPanics(row: Tuple, s: Stream, schema: Schema)
    requires s.rows == [row] && schema.FindColIdx("b") == Some(1) && |row.values| == 1
    ensures ProjectStream(s, [ColRef("b")], schema) == Stream([], Fail(PanicIndexOutOfBounds))
  {
    assert Eval(ColRef("b"), row.values, schema) == Err(PanicIndexOutOfBounds);
  }

  lemma SelectBPanics(db: Db, own: Option<nat>, order: HashOrder)
    requires "t" in db.catalog && db.catalog["t"] == TwoColumns() && "t" in db.tables
    requires ScanStream(Reader(db, own, order), "t", 0) == Stream([TheRow()], Done)
    ensures QueryResult(SelectB(), db.catalog, Reader(db, own, order)) == Err(PanicIndexOutOfBounds)
  {
    hide PlanSchema, ScanStream, ProjectStream, TwoColumns;
    var ctx, scan := Reader(db, own, order), Scan("t", None);
    SecondColumn(db.catalog);
    var schema := PlanSchema(scan, db.catalog).value;
    ProjectPanics(TheRow(), Stream([TheRow()], Done), schema);
    var items := [(ColRef("b"), "b")];
    assert Exprs(items) == [ColRef("b")];
    DenoteUnfolds(Project(scan, items), db.catalog, ctx);
    assert Buildable(scan, db.catalog) == Ok(());
    assert Buildable(SelectB(), db.catalog) == BuildableWithSchema(scan, db.catalog) == Ok(());
    assert PlanSchema(SelectB(), db.catalog).Ok? by {
      SelectBSchema(db.catalog);
    }
  }

  lemma SelectBSchema(catalog: CatalogMap)
    requires "t" in catalog && catalog["t"] == TwoColumns()
    ensures PlanSchema(SelectB(), catalog).Ok?
  {
    SecondColumn(catalog);
    hide Qualify, Schema.FindColIdx;
    var items := [(ColRef("b"), "b")];
    assert items[1..] == [];
    var schema := PlanSchema(Scan("t", None), catalog).value;
    assert ExprType(ColRef("b"), schema) == Ok(schema.columns[1].dataType);
    assert ProjectColumns([], schema) == Ok([]);
    assert ProjectColumns(items, schema).Ok?;
  }

  /** Recovery does not bring back the catalog, and CREATE TABLE does not look at recovered rows: a table
      created again with a second column makes the query of that column index past the end of its row. */
  lemma RecreatedWiderTablePanics(demo: seq<DemoTable>, order: HashOrder)
    requires DemoOk(demo) && !IsDemo(demo, "t")
    ensures var w := Recreated(Play(Fresh(), CommitOneRow(order)), 2, demo, "t", TwoColumns(), order);
            ResponseTo(w, Run(2, Query(SelectB()), order)) == Err(PanicIndexOutOfBounds)
  {
    hide Play, Fresh, Booted, CommitOneRow, Recreated, IsVisible, QueryResult, RollBackAfterRestart, DemoOk, IsDemo, DemoRows;
    var first := Play(Fresh(), CommitOneRow(order));
    var w := Recreated(first, 2, demo, "t", TwoColumns(), order);
    assert Lower("t") == "t";
    RecreatedTable(first, 2, demo, "t", TwoColumns(), order);
    RowSurvivesFirstRestart(order);
    NoDemoRows(demo, "t", w.db.tx.scn);
    var ctx := Reader(w.db, None, order);
    assert w.db.tables["t"] == [TheRow()];
    assert NoCrash(CommitOneRow(order)) by {
      CommitsWithoutCrash(order);
    }
    FirstSelectSeesRecoveredRows(CommitOneRow(order), "t", TheRow(), None);
    assert ctx.Sees(TheRow());
    ScanEnds(ctx, "t");
    VisibleIsSelect(ctx, [TheRow()]);
    SelectOne(TheRow(), (row: Tuple) => ctx.Sees(row));
    SelectBPanics(w.db, None, order);
    QueryResponse(w, 2, SelectB(), order);
  }

  lemma {:induction false} NoDemoRows(demo: seq<DemoTable>, t: string, scn: nat)
    requires !IsDemo(demo, t)
    ensures DemoRows(demo, t, scn) == []
    decreases |demo|
  {
    if demo != [] {
      IsDemoFront(demo, t);
      NoDemoRows(demo[..|demo| - 1], t, scn);
    }
  }

  lemma CommitsWithoutCrash(order: HashOrder)
    ensures NoCrash(CommitOneRow(order))
  {
  }
}
