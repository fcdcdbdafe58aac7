/** Instance recovery (src/recovery.rs): replay of the log, then removal of the rows of transactions
    that did not commit. */
module Recovery {
  import opened Wrappers
  import opened Storage
  import opened Catalog
  import opened Transactions
  import opened Sequences
  import opened Handler

  datatype Replay = Replay(tables: Tables, vis: Visibility, committed: set<nat>, rolledBack: set<nat>, maxScn: nat)
  {
    predicate Keeps(row: Tuple) {
      row.txId.None? || (row.txId.value in committed && row.txId.value !in rolledBack)
    }
  }

  function Max(a: nat, b: nat): nat {
    if a < b then b else a
  }

  function RowsIn(tables: Tables, t: string): seq<Tuple> {
    if t in tables then tables[t] else []
  }

  function ReplayOne(r: Replay, rec: RedoRecord): Replay {
    match rec
    case RedoBegin(tx, scn) =>
      r.(vis := r.vis.(statuses := r.vis.statuses[tx := Active]), maxScn := Max(r.maxScn, scn))
    case RedoInsert(tx, scn, table, values, _) =>
      r.(tables := r.tables[table := RowsIn(r.tables, table) + [Tuple(values, Some(tx), scn)]], maxScn := Max(r.maxScn, scn))
    case RedoCommit(tx, scn) =>
      r.(committed := r.committed + {tx},
      vis := Visibility(r.vis.statuses[tx := Committed], r.vis.commitScns[tx := scn]),
      maxScn := Max(r.maxScn, scn))
    case RedoRollback(tx, scn) =>
      r.(rolledBack := r.rolledBack + {tx},
      vis := r.vis.(statuses := r.vis.statuses[tx := RolledBack]),
      maxScn := Max(r.maxScn, scn))
  }

  function ReplayAll(r: Replay, recs: seq<RedoRecord>): Replay {
    if recs == [] then r
    else ReplayOne(ReplayAll(r, recs[..|recs| - 1]), recs[|recs| - 1])
  }

  function RolledForward(tables: Tables, tx: TxState): Replay {
    ReplayAll(Replay(tables, tx.vis, {}, {}, 0), tx.log)
  }

  /** What recovery makes of the tables and the transaction manager; nothing on an empty log. The
      counter of transaction ids is not part of what is restored. */
  function Recovered(tables: Tables, tx: TxState): (Tables, TxState) {
    if tx.log == [] then (tables, tx)
    else
      var r := RolledForward(tables, tx);
      (map t | t in r.tables :: Select(r.tables[t], row => r.Keeps(row)),
       tx.(vis := r.vis, scn := r.maxScn + 1))
  }

  /** A server started on a log. */
  function Booted(log: seq<RedoRecord>): Db {
    var (tables, tx) := Recovered(map[], Opened(log));
    Db(map[], tables, tx)
  }

  method Recover(db: DatabaseState)
    modifies db, db.txMgr
    ensures var (tables, tx) := old(Recovered(db.tables, db.txMgr.View()));
            db.View() == Db(old(db.catalog.tables), tables, tx)
  {
    var txMgr := db.txMgr;
    if txMgr.redoFile == [] {
      return;
    }
    var records := txMgr.redoFile;
    var committed: set<nat>, rolledBack: set<nat>, maxScn: nat := {}, {}, 0;
    ghost var start := Replay(db.tables, txMgr.View().vis, {}, {}, 0);
    for i := 0 to |records|
      invariant db.catalog.tables == old(db.catalog.tables)
      invariant txMgr.View() == old(txMgr.View()).(vis := Visibility(txMgr.statuses, txMgr.commitScns))
      invariant Replay(db.tables, txMgr.View().vis, committed, rolledBack, maxScn) == ReplayAll(start, records[..i])
    {
      assert records[..i + 1][..i] == records[..i];
      match records[i]
      case RedoBegin(tx, scn) =>
        txMgr.statuses := txMgr.statuses[tx := Active];
        maxScn := Max(maxScn, scn);
      case RedoInsert(tx, scn, table, values, _) =>
        db.tables := db.tables[table := RowsIn(db.tables, table) + [Tuple(values, Some(tx), scn)]];
        maxScn := Max(maxScn, scn);
      case RedoCommit(tx, scn) =>
        committed := committed + {tx};
        txMgr.statuses := txMgr.statuses[tx := Committed];
        txMgr.commitScns := txMgr.commitScns[tx := scn];
        maxScn := Max(maxScn, scn);
      case RedoRollback(tx, scn) =>
        rolledBack := rolledBack + {tx};
        txMgr.statuses := txMgr.statuses[tx := RolledBack];
        maxScn := Max(maxScn, scn);
    }
    assert records[..|records|] == records;
    txMgr.scn := maxScn + 1;
    Retain(db, committed, rolledBack, ReplayAll(start, records));
  }

  /** Keeps, in every table, the rows of committed transactions and the system rows. */
  method Retain(db: DatabaseState, committed: set<nat>, rolledBack: set<nat>, ghost r: Replay)
    requires db.tables == r.tables && committed == r.committed && rolledBack == r.rolledBack
    modifies db`tables
    ensures db.tables == map t | t in r.tables :: Select(r.tables[t], row => r.Keeps(row))
  {
    var names := db.tables.Keys;
    var before := db.tables;
    while names != {}
      invariant names <= before.Keys && db.tables.Keys == before.Keys
      invariant forall t | t in names :: db.tables[t] == before[t]
      invariant forall t | t in before && t !in names :: db.tables[t] == Select(before[t], row => r.Keeps(row))
      decreases |names|
    {
      var t :| t in names;
      names := names - {t};
      var kept := RetainRows(before[t], committed, rolledBack, r);
      db.tables := db.tables[t := kept];
    }
  }

  method RetainRows(rows: seq<Tuple>, committed: set<nat>, rolledBack: set<nat>, ghost r: Replay) returns (kept: seq<Tuple>)
    requires committed == r.committed && rolledBack == r.rolledBack
    ensures kept == Select(rows, row => r.Keeps(row))
  {
    kept := [];
    for i := 0 to |rows|
      invariant kept == Select(rows[..i], row => r.Keeps(row))
    {
      var row := rows[i];
      assert rows[..i + 1] == rows[..i] + [row];
      SelectAppend(rows[..i], row, row => r.Keeps(row));
      if row.txId.None? || (row.txId.value in committed && row.txId.value !in rolledBack) {
        kept := kept + [row];
      }
    }
    assert rows[..|rows|] == rows;
  }
}
