/** All-or-nothing durability: what recovery rebuilds from the log is what had committed. */
module Durability {
  import opened Wrappers
  import opened Storage
  import opened Transactions
  import opened Sequences
  import opened Handler
  import opened Recovery
  import opened Server
  import opened Lifecycle
  import opened WriteAhead

  /** The rows a list of records inserts into a table, in order. */
  function LoggedRows(recs: seq<RedoRecord>, t: string): seq<Tuple> {
    if recs == [] then []
    else
      LoggedRows(recs[..|recs| - 1], t) +
      match recs[|recs| - 1]
      case RedoInsert(tx, scn, table, values, _) => if table == t then [Tuple(values, Some(tx), scn)] else []
      case _ => []
  }

  predicate CommitsIn(recs: seq<RedoRecord>, id: nat) {
    exists i :: 0 <= i < |recs| && recs[i].RedoCommit? && recs[i].txId == id
  }

  predicate RollsBackIn(recs: seq<RedoRecord>, id: nat) {
    exists i :: 0 <= i < |recs| && recs[i].RedoRollback? && recs[i].txId == id
  }

  lemma {:induction false} LoggedRowsConcat(a: seq<RedoRecord>, b: seq<RedoRecord>, t: string)
    ensures LoggedRows(a + b, t) == LoggedRows(a, t) + LoggedRows(b, t)
    decreases |b|
  {
    if b == [] {
      assert a + b == a;
    } else {
      LoggedRowsConcat(a, b[..|b| - 1], t);
      assert (a + b)[..|a + b| - 1] == a + b[..|b| - 1];
    }
  }

  predicate InsertedBy(recs: seq<RedoRecord>, row: Tuple) {
    row.txId.Some? && exists j :: 0 <= j < |recs| && recs[j].txId == row.txId.value
  }

  lemma {:induction false} LoggedRowsOwners(recs: seq<RedoRecord>, t: string)
    ensures forall i | 0 <= i < |LoggedRows(recs, t)| :: InsertedBy(recs, LoggedRows(recs, t)[i])
    decreases |recs|
  {
    if recs != [] {
      var n := |recs| - 1;
      LoggedRowsOwners(recs[..n], t);
      var front := LoggedRows(recs[..n], t);
      forall i | 0 <= i < |LoggedRows(recs, t)| ensures InsertedBy(recs, LoggedRows(recs, t)[i]) {
        if i < |front| {
          assert InsertedBy(recs[..n], front[i]);
          var j :| 0 <= j < n && recs[..n][j].txId == front[i].txId.value;
          assert recs[j].txId == front[i].txId.value;
        } else {
          assert recs[n].txId == LoggedRows(recs, t)[i].txId.value;
        }
      }
    }
  }

  // What replay computes.

  function EmptyReplay(): Replay {
    Replay(map[], Visibility(map[], map[]), {}, {}, 0)
  }

  lemma MoreCommits(recs: seq<RedoRecord>, id: nat)
    requires recs != []
    ensures var n := |recs| - 1;
            && (CommitsIn(recs, id) <==> CommitsIn(recs[..n], id) || (recs[n].RedoCommit? && recs[n].txId == id))
            && (RollsBackIn(recs, id) <==> RollsBackIn(recs[..n], id) || (recs[n].RedoRollback? && recs[n].txId == id))
  {
    var n := |recs| - 1;
    if i :| 0 <= i < n && recs[..n][i].RedoCommit? && recs[..n][i].txId == id {
      assert recs[i].RedoCommit? && recs[i].txId == id;
    }
    if i :| 0 <= i < n && recs[..n][i].RedoRollback? && recs[..n][i].txId == id {
      assert recs[i].RedoRollback? && recs[i].txId == id;
    }
    if i :| 0 <= i < |recs| && recs[i].RedoCommit? && recs[i].txId == id && i != n {
      assert recs[..n][i].RedoCommit? && recs[..n][i].txId == id;
    }
    if i :| 0 <= i < |recs| && recs[i].RedoRollback? && recs[i].txId == id && i != n {
      assert recs[..n][i].RedoRollback? && recs[..n][i].txId == id;
    }
  }

  lemma {:induction false} ReplayAppends(start: Replay, recs: seq<RedoRecord>)
    requires start.committed == {} && start.rolledBack == {}
    ensures var r := ReplayAll(start, recs);
            && (forall t :: RowsIn(r.tables, t) == RowsIn(start.tables, t) + LoggedRows(recs, t))
            && (forall id :: id in r.committed <==> CommitsIn(recs, id))
            && (forall id :: id in r.rolledBack <==> RollsBackIn(recs, id))
    decreases |recs|
  {
    if recs != [] {
      var n := |recs| - 1;
      ReplayAppends(start, recs[..n]);
      var r := ReplayAll(start, recs[..n]);
      forall t ensures RowsIn(ReplayOne(r, recs[n]).tables, t) == RowsIn(start.tables, t) + LoggedRows(recs, t) {
        assert RowsIn(r.tables, t) == RowsIn(start.tables, t) + LoggedRows(recs[..n], t);
      }
      forall id {
        MoreCommits(recs, id);
      }
    }
  }

  lemma ReplayedTables(recs: seq<RedoRecord>)
    ensures var r := ReplayAll(EmptyReplay(), recs);
            && (forall t :: RowsIn(r.tables, t) == LoggedRows(recs, t))
            && (forall id :: id in r.committed <==> CommitsIn(recs, id))
            && (forall id :: id in r.rolledBack <==> RollsBackIn(recs, id))
  {
    hide ReplayAll, LoggedRows, CommitsIn, RollsBackIn;
    ReplayAppends(EmptyReplay(), recs);
    assert forall t :: [] + LoggedRows(recs, t) == LoggedRows(recs, t);
  }

  /** Whether recovery keeps a logged row. */
  predicate Kept(log: seq<RedoRecord>, row: Tuple) {
    row.txId.None? || (CommitsIn(log, row.txId.value) && !RollsBackIn(log, row.txId.value))
  }

  /** Recovery in closed form, for any log at all. */
  lemma BootedRows(log: seq<RedoRecord>, t: string)
    ensures RowsIn(Booted(log).tables, t) == Select(LoggedRows(log, t), (row: Tuple) => Kept(log, row))
  {
    hide ReplayAll, LoggedRows;
    if log == [] {
      assert LoggedRows(log, t) == [] by {
        NothingLogged(t);
      }
    } else {
      ReplayedTables(log);
      var r := ReplayAll(EmptyReplay(), log);
      var rows := LoggedRows(log, t);
      assert RowsIn(r.tables, t) == rows;
      SelectAgree(rows, (row: Tuple) => r.Keeps(row), (row: Tuple) => Kept(log, row));
      if t !in r.tables {
        assert rows == [];
      }
    }
  }

  lemma NothingLogged(t: string)
    ensures LoggedRows([], t) == []
  {
  }

  lemma {:induction false} ReplayedClock(start: Replay, recs: seq<RedoRecord>)
    requires start.maxScn == 0
    ensures var m := ReplayAll(start, recs).maxScn;
            && (forall i | 0 <= i < |recs| :: recs[i].scn <= m)
            && (recs != [] ==> exists i :: 0 <= i < |recs| && recs[i].scn == m)
    decreases |recs|
  {
    if recs != [] {
      var n := |recs| - 1;
      ReplayedClock(start, recs[..n]);
      var m, before := ReplayAll(start, recs).maxScn, ReplayAll(start, recs[..n]).maxScn;
      if m == before && n > 0 {
        var i :| 0 <= i < n && recs[..n][i].scn == before;
        assert recs[i].scn == m;
      } else {
        assert recs[n].scn == m;
      }
    }
  }

  /** Recovery into any tables: rows that are there already stay if they are system rows or of transactions
      that commit in the log and do not roll back; the logged rows of such transactions follow, in order. The
      clock moves to one above the largest SCN of the log, and nothing else of the manager changes but what it
      knows of transactions. An empty log leaves everything alone. */
  lemma RecoveredState(tables: Tables, tx: TxState, t: string)
    ensures var (after, tx2) := Recovered(tables, tx);
            && (tx.log == [] ==> after == tables && tx2 == tx)
            && (tx.log != [] ==>
                  && RowsIn(after, t) == Select(RowsIn(tables, t) + LoggedRows(tx.log, t), (row: Tuple) => Kept(tx.log, row))
                  && (forall i | 0 <= i < |tx.log| :: tx.log[i].scn < tx2.scn)
                  && (exists i :: 0 <= i < |tx.log| && tx.log[i].scn + 1 == tx2.scn)
                  && tx2 == tx.(vis := tx2.vis, scn := tx2.scn))
  {
    hide ReplayAll, LoggedRows, CommitsIn, RollsBackIn;
    if tx.log != [] {
      var start := Replay(tables, tx.vis, {}, {}, 0);
      ReplayAppends(start, tx.log);
      ReplayedClock(start, tx.log);
      var r := ReplayAll(start, tx.log);
      var rows := RowsIn(tables, t) + LoggedRows(tx.log, t);
      assert RowsIn(r.tables, t) == rows;
      SelectAgree(rows, (row: Tuple) => r.Keeps(row), (row: Tuple) => Kept(tx.log, row));
      if t !in r.tables {
        assert rows == [];
      }
    }
  }

  // From the log on disk to the history.

  predicate CommittedRow(recs: seq<RedoRecord>, row: Tuple) {
    row.txId.Some? && CommitsIn(recs, row.txId.value)
  }

  lemma ShapeTells(own: seq<RedoRecord>, status: TxStatus)
    requires Shape(own, status)
    ensures (exists r :: r in own && r.RedoCommit?) <==> status == Committed
    ensures (exists r :: r in own && r.RedoRollback?) <==> status == RolledBack
  {
    var n := |own| - 1;
    assert own[n] in own;
    forall i | 0 <= i < |own| ensures Terminal(own[i]) ==> status != Active && i == n {
      if i > 0 {
        if status == Active {
          assert own[1..][i - 1] == own[i];
        } else if i < n {
          assert own[1..n][i - 1] == own[i];
        }
      }
    }
  }

  lemma StatusFromShape(recs: seq<RedoRecord>, tx: TxState, id: nat)
    requires Shaped(recs, tx)
    ensures CommitsIn(recs, id) <==> id in tx.vis.statuses && tx.vis.statuses[id] == Committed
    ensures RollsBackIn(recs, id) <==> id in tx.vis.statuses && tx.vis.statuses[id] == RolledBack
  {
    hide Shape;
    var own := OfTx(recs, id);
    forall r ensures r in own <==> r in recs && r.txId == id {
      SelectMember(recs, (r: RedoRecord) => r.txId == id, r);
    }
    hide OfTx;
    assert CommitsIn(recs, id) <==> exists r :: r in own && r.RedoCommit?;
    assert RollsBackIn(recs, id) <==> exists r :: r in own && r.RedoRollback?;
    if id in tx.vis.statuses {
      ShapeTells(own, tx.vis.statuses[id]);
    }
  }

  lemma LogDecides(tx: TxState, id: nat)
    requires WalOk(tx)
    ensures CommitsIn(tx.log, id) <==> CommitsIn(Trail(tx), id)
    ensures RollsBackIn(tx.log, id) <==> RollsBackIn(Trail(tx), id)
  {
    var all := Trail(tx);
    forall i | 0 <= i < |all| ensures Terminal(all[i]) ==> i < |tx.log| {
      if i >= |tx.log| {
        assert all[i] == tx.buffer[i - |tx.log|];
      }
    }
    if CommitsIn(tx.log, id) {
      var i :| 0 <= i < |tx.log| && tx.log[i].RedoCommit? && tx.log[i].txId == id;
      assert all[i].RedoCommit? && all[i].txId == id;
    }
    if CommitsIn(all, id) {
      var i :| 0 <= i < |all| && all[i].RedoCommit? && all[i].txId == id;
      assert tx.log[i].RedoCommit? && tx.log[i].txId == id;
    }
    if RollsBackIn(tx.log, id) {
      var i :| 0 <= i < |tx.log| && tx.log[i].RedoRollback? && tx.log[i].txId == id;
      assert all[i].RedoRollback? && all[i].txId == id;
    }
    if RollsBackIn(all, id) {
      var i :| 0 <= i < |all| && all[i].RedoRollback? && all[i].txId == id;
      assert tx.log[i].RedoRollback? && tx.log[i].txId == id;
    }
  }

  lemma BufferedRowsUncommitted(tx: TxState, t: string)
    requires WalOk(tx)
    ensures Select(LoggedRows(tx.buffer, t), (row: Tuple) => CommittedRow(Trail(tx), row)) == []
  {
    hide LoggedRows, CommitsIn;
    var rows := LoggedRows(tx.buffer, t);
    LoggedRowsOwners(tx.buffer, t);
    forall i | 0 <= i < |rows| ensures !CommittedRow(Trail(tx), rows[i]) {
      assert InsertedBy(tx.buffer, rows[i]);
      var j :| 0 <= j < |tx.buffer| && tx.buffer[j].txId == rows[i].txId.value;
      StatusFromShape(Trail(tx), tx, rows[i].txId.value);
    }
    SelectNone(rows, (row: Tuple) => CommittedRow(Trail(tx), row));
  }

  /** Recovery of a well-formed log rebuilds the committed rows of log and buffer together. */
  lemma RecoversCommitted(tx: TxState, t: string)
    requires WalOk(tx)
    ensures RowsIn(Booted(tx.log).tables, t) ==
            Select(LoggedRows(Trail(tx), t), (row: Tuple) => CommittedRow(Trail(tx), row))
  {
    hide LoggedRows, CommitsIn, RollsBackIn, Booted;
    BootedRows(tx.log, t);
    LoggedRowsConcat(tx.log, tx.buffer, t);
    var logged, buffered := LoggedRows(tx.log, t), LoggedRows(tx.buffer, t);
    SelectConcat(logged, buffered, (row: Tuple) => CommittedRow(Trail(tx), row));
    BufferedRowsUncommitted(tx, t);
    LoggedRowsOwners(tx.log, t);
    forall i | 0 <= i < |logged| ensures Kept(tx.log, logged[i]) == CommittedRow(Trail(tx), logged[i]) {
      assert InsertedBy(tx.log, logged[i]);
      var id := logged[i].txId.value;
      LogDecides(tx, id);
      StatusFromShape(Trail(tx), tx, id);
    }
    SelectAgree(logged, (row: Tuple) => Kept(tx.log, row), (row: Tuple) => CommittedRow(Trail(tx), row));
  }

  /** All-or-nothing durability. Crash a first-generation server after any step: recovery rebuilds, per
      table, exactly the rows inserted by the transactions that had committed, in insertion order, and no
      row of any other transaction. */
  lemma CrashKeepsExactlyCommitted(steps: seq<Step>, t: string)
    requires NoCrash(steps)
    ensures var history := History(Fresh(), steps);
            RowsIn(Next(Play(Fresh(), steps), Crash).db.tables, t) ==
            Select(LoggedRows(history, t), (row: Tuple) => CommittedRow(history, row))
  {
    hide WalOk, Trail, History, LoggedRows, CommittedRow;
    LogAndBufferAreHistory(steps);
    RecoversCommitted(Play(Fresh(), steps).db.tx, t);
  }

  // The first SELECT after recovery.

  lemma {:induction false} ReplayedStatus(recs: seq<RedoRecord>, id: nat)
    ensures var r, own := ReplayAll(EmptyReplay(), recs), OfTx(recs, id);
            && (own != [] && Terminal(own[|own| - 1]) ==>
                  id in r.vis.statuses && r.vis.statuses[id] == StatusAfter(own[|own| - 1]))
            && (id in r.vis.statuses && r.vis.statuses[id] == Committed ==> id in r.vis.commitScns)
            && (id in r.vis.commitScns ==> r.vis.commitScns[id] <= r.maxScn)
    decreases |recs|
  {
    if recs != [] {
      var n := |recs| - 1;
      ReplayedStatus(recs[..n], id);
      OfTxAppend(recs[..n], recs[n], id);
      assert recs == recs[..n] + [recs[n]];
    }
  }

  /** Every recovered row is visible to the first SELECT of any session. */
  lemma FirstSelectSeesRecoveredRows(steps: seq<Step>, t: string, row: Tuple, own: Option<nat>)
    requires NoCrash(steps)
    requires row in RowsIn(Next(Play(Fresh(), steps), Crash).db.tables, t)
    ensures var db := Next(Play(Fresh(), steps), Crash).db;
            IsVisible(db.tx.vis, row.txId, own, db.tx.scn)
  {
    hide History, LoggedRows, ReplayAll, Shape;
    var tx := Play(Fresh(), steps).db.tx;
    LogAndBufferAreHistory(steps);
    RecoversCommitted(tx, t);
    SelectMember(LoggedRows(Trail(tx), t), (r: Tuple) => CommittedRow(Trail(tx), r), row);
    var id := row.txId.value;
    StatusFromShape(Trail(tx), tx, id);
    FinishedIsOnDisk(tx, id);
    EndsInCommit(OfTx(tx.log, id));
    ReplayedStatus(tx.log, id);
    assert tx.log != [] by {
      LogDecides(tx, id);
    }
  }

  lemma EndsInCommit(own: seq<RedoRecord>)
    requires Shape(own, Committed)
    ensures own != [] && own[|own| - 1].RedoCommit?
  {
  }
}
