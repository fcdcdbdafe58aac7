/** Life of transactions within one server generation: ids, statuses, commit SCNs, and what readers see. */
module Lifecycle {
  import opened Wrappers
  import opened Storage
  import opened Planner
  import opened Transactions
  import opened Meaning
  import opened Handler
  import opened Recovery
  import opened Server

  /** Issued ids are exactly 1 .. next - 1; exactly the committed ones have a commit SCN, none above the clock. */
  ghost predicate TxOk(tx: TxState) {
    && tx.nextTxId >= 1
    && (forall id :: id in tx.vis.statuses <==> 1 <= id < tx.nextTxId)
    && (forall id :: id in tx.vis.commitScns <==> id in tx.vis.statuses && tx.vis.statuses[id] == Committed)
    && (forall id | id in tx.vis.commitScns :: tx.vis.commitScns[id] <= tx.scn)
  }

  ghost predicate IsActive(tx: TxState, id: nat) {
    id in tx.vis.statuses && tx.vis.statuses[id] == Active
  }

  /** A session's transaction is active and no other session holds it. */
  ghost predicate SessionsOk(w: World) {
    && (forall s | s in w.sessions && w.sessions[s].current.Some? :: IsActive(w.db.tx, w.sessions[s].current.value))
    && (forall s, r | s in w.sessions && r in w.sessions && s != r && w.sessions[s].current.Some? ::
          w.sessions[s].current != w.sessions[r].current)
    && (forall s | s in w.sessions :: w.sessions[s].crScn <= w.db.tx.scn)
  }

  ghost predicate RowsIssued(rows: seq<Tuple>, tx: TxState) {
    forall i | 0 <= i < |rows| && rows[i].txId.Some? :: rows[i].txId.value in tx.vis.statuses
  }

  /** Every stored row belongs to an issued transaction or to none. */
  ghost predicate TablesIssued(tables: Tables, tx: TxState) {
    forall t | t in tables :: RowsIssued(tables[t], tx)
  }

  ghost predicate Inv(w: World) {
    TxOk(w.db.tx) && SessionsOk(w) && TablesIssued(w.db.tables, w.db.tx)
  }

  /** What time does to transactions: ids and SCNs grow, finished transactions stay as they are, and
      a commit gets an SCN above every SCN captured before it. */
  ghost predicate Later(a: TxState, b: TxState) {
    && a.scn <= b.scn && a.nextTxId <= b.nextTxId
    && (forall id | id in a.vis.statuses :: id in b.vis.statuses)
    && (forall id | id in a.vis.statuses && a.vis.statuses[id] != Active :: b.vis.statuses[id] == a.vis.statuses[id])
    && (forall id | id in a.vis.commitScns :: id in b.vis.commitScns && b.vis.commitScns[id] == a.vis.commitScns[id])
    && (forall id | id in b.vis.commitScns && id !in a.vis.commitScns :: a.scn < b.vis.commitScns[id])
  }

  lemma LaterTransitive(a: TxState, b: TxState, c: TxState)
    requires Later(a, b) && Later(b, c)
    ensures Later(a, c)
  {
  }

  // Effects of single operations on the tables.

  lemma UndoOneIssued(tables: Tables, rec: UndoRecord, tx: TxState)
    requires TablesIssued(tables, tx)
    ensures TablesIssued(UndoOne(tables, rec), tx)
  {
    if rec.table in tables && rec.rowIdx < |tables[rec.table]| {
      var rows := tables[rec.table];
      assert RowsIssued(rows, tx);
      assert RowsIssued(RemoveAt(rows, rec.rowIdx), tx);
    }
  }

  lemma {:induction false} UndoAllIssued(tables: Tables, recs: seq<UndoRecord>, tx: TxState)
    requires TablesIssued(tables, tx)
    ensures TablesIssued(UndoAll(tables, recs), tx)
    decreases |recs|
  {
    hide TablesIssued, UndoOne;
    if recs != [] {
      UndoOneIssued(tables, recs[|recs| - 1], tx);
      UndoAllIssued(UndoOne(tables, recs[|recs| - 1]), recs[..|recs| - 1], tx);
    }
  }

  /** A multi-row insert touches neither the clock nor any status, and adds rows of its own transaction only. */
  lemma {:induction false} InsertRowsIssued(db: Db, name: string, width: nat, tx: Option<nat>, rows: seq<seq<Expr>>, count: nat)
    requires name in db.tables && TablesIssued(db.tables, db.tx)
    requires tx.Some? ==> tx.value in db.tx.vis.statuses
    ensures var after := InsertRows(db, name, width, tx, rows, count).0;
            && after.tx.vis == db.tx.vis && after.tx.scn == db.tx.scn && after.tx.nextTxId == db.tx.nextTxId
            && after.tx.log == db.tx.log && after.catalog == db.catalog
            && after.tables.Keys == db.tables.Keys
            && TablesIssued(after.tables, after.tx)
    decreases |rows|
  {
    hide RowValues;
    if rows != [] && RowValues(rows[0], width).Ok? {
      var values := RowValues(rows[0], width).value;
      var mid := InsertRow(db, name, tx, values);
      forall t | t in mid.tables ensures RowsIssued(mid.tables[t], mid.tx) {
        assert RowsIssued(db.tables[t], db.tx);
      }
      InsertRowsIssued(mid, name, width, tx, rows[1..], count + 1);
    }
  }

  // One statement.

  ghost predicate OthersStayActive(a: TxState, b: TxState, own: Option<nat>) {
    forall id: nat | IsActive(a, id) && own != Some(id) :: IsActive(b, id)
  }

  lemma BegunOk(tx: TxState)
    requires TxOk(tx)
    ensures TxOk(tx.Begun()) && Later(tx, tx.Begun()) && OthersStayActive(tx, tx.Begun(), None)
    ensures IsActive(tx.Begun(), tx.nextTxId) && tx.nextTxId !in tx.vis.statuses
  {
  }

  lemma CommitOk(tx: TxState, id: nat)
    requires TxOk(tx) && IsActive(tx, id)
    ensures TxOk(tx.CommitDone(id)) && Later(tx, tx.CommitDone(id)) && OthersStayActive(tx, tx.CommitDone(id), Some(id))
  {
  }

  lemma RollbackOk(tx: TxState, id: nat)
    requires TxOk(tx) && IsActive(tx, id)
    ensures var after := tx.UndoTaken(id).RollbackDone(id);
            TxOk(after) && Later(tx, after) && OthersStayActive(tx, after, Some(id))
  {
  }

  /** Inserting leaves clock, statuses and ids alone. */
  lemma SameVisOk(a: TxState, b: TxState)
    requires TxOk(a) && b.vis == a.vis && b.scn == a.scn && b.nextTxId == a.nextTxId
    ensures TxOk(b) && Later(a, b) && OthersStayActive(a, b, None)
  {
  }

  lemma StatementKeeps(db: Db, session: Session, stmt: Statement, order: HashOrder)
    requires TxOk(db.tx) && TablesIssued(db.tables, db.tx)
    requires session.current.Some? ==> IsActive(db.tx, session.current.value)
    ensures var e := Execute(db, session, stmt, order);
            && TxOk(e.db.tx) && TablesIssued(e.db.tables, e.db.tx) && Later(db.tx, e.db.tx)
            && (session.crScn <= db.tx.scn ==> e.session.crScn <= e.db.tx.scn)
            && (e.session.current.Some? ==> IsActive(e.db.tx, e.session.current.value))
            && (e.session.current.Some? && e.session.current != session.current ==>
                  e.session.current.value !in db.tx.vis.statuses)
            && OthersStayActive(db.tx, e.db.tx, session.current)
  {
    hide QueryResult, RowsIssued, UndoAll, InsertRows, Lower, TxOk;
    SameVisOk(db.tx, db.tx);
    match stmt
    case Begin =>
      BegunOk(db.tx);
      TablesStayIssued(db.tables, db.tx, db.tx.Begun());
    case Commit =>
      if session.current.Some? {
        CommitOk(db.tx, session.current.value);
        TablesStayIssued(db.tables, db.tx, db.tx.CommitDone(session.current.value));
      }
    case Rollback =>
      if session.current.Some? {
        var tx := session.current.value;
        RollbackOk(db.tx, tx);
        UndoAllIssued(db.tables, db.tx.UndoOf(tx), db.tx);
        TablesStayIssued(UndoAll(db.tables, db.tx.UndoOf(tx)), db.tx, RolledBackDb(db, tx).tx);
      }
    case CreateTable(name, schema) =>
      EmptyIssued(db.tx);
    case InsertInto(name, rows) =>
      var lower := Lower(name);
      if lower in db.catalog && lower in db.tables {
        InsertRowsIssued(db, lower, |db.catalog[lower].columns|, session.current, rows, 0);
        SameVisOk(db.tx, Execute(db, session, stmt, order).db.tx);
      }
    case Query(_) =>
  }

  lemma EmptyIssued(tx: TxState)
    ensures RowsIssued([], tx)
  {
  }

  lemma TablesStayIssued(tables: Tables, a: TxState, b: TxState)
    requires TablesIssued(tables, a)
    requires forall id | id in a.vis.statuses :: id in b.vis.statuses
    ensures TablesIssued(tables, b)
  {
    forall t | t in tables ensures RowsIssued(tables[t], b) {
      assert RowsIssued(tables[t], a);
    }
  }

  /** Every step but a crash keeps the invariant and moves time forward. */
  lemma StepKeeps(w: World, step: Step)
    requires Inv(w) && !step.Crash?
    ensures Inv(Next(w, step)) && Later(w.db.tx, Next(w, step).db.tx)
  {
    hide Execute, TxOk, TablesIssued, Later;
    LaterReflexive(w.db.tx);
    if step.Run? {
      StatementKeeps(w.db, w.SessionOf(step.sid), step.stmt, step.order);
      LaterGrows(w.db.tx, Next(w, step).db.tx);
    }
  }

  lemma LaterGrows(a: TxState, b: TxState)
    requires Later(a, b)
    ensures a.scn <= b.scn && forall id | id in a.vis.statuses :: id in b.vis.statuses
  {
  }

  /** Ids are never reissued, finished transactions stay finished and sessions never share a
      transaction, in every run without a crash. */
  lemma {:induction false} RunKeeps(w: World, steps: seq<Step>)
    requires Inv(w) && NoCrash(steps)
    ensures Inv(Play(w, steps)) && Later(w.db.tx, Play(w, steps).db.tx)
    decreases |steps|
  {
    hide Inv, Next, Later;
    if steps == [] {
      LaterReflexive(w.db.tx);
    } else {
      var front := steps[..|steps| - 1];
      RunKeeps(w, front);
      StepKeeps(Play(w, front), steps[|steps| - 1]);
      LaterTransitive(w.db.tx, Play(w, front).db.tx, Play(w, steps).db.tx);
    }
  }

  lemma LaterReflexive(a: TxState)
    ensures Later(a, a)
  {
  }

  lemma FreshIsOk()
    ensures Inv(Fresh())
  {
  }

  // What readers see.

  /** A snapshot never changes: for a captured SCN and a transaction other than the reader's own,
      visibility is the same in every later state. */
  lemma SnapshotIsStable(a: TxState, b: TxState, rowTx: nat, own: Option<nat>, crScn: nat)
    requires TxOk(a) && TxOk(b) && Later(a, b)
    requires crScn <= a.scn && own != Some(rowTx)
    ensures IsVisible(a.vis, Some(rowTx), own, crScn) == IsVisible(b.vis, Some(rowTx), own, crScn)
  {
  }

  lemma SnapshotIsStableInRuns(w: World, steps: seq<Step>, rowTx: nat, own: Option<nat>, crScn: nat)
    requires Inv(w) && NoCrash(steps)
    requires crScn <= w.db.tx.scn && own != Some(rowTx)
    ensures IsVisible(w.db.tx.vis, Some(rowTx), own, crScn) ==
            IsVisible(Play(w, steps).db.tx.vis, Some(rowTx), own, crScn)
  {
    RunKeeps(w, steps);
    SnapshotIsStable(w.db.tx, Play(w, steps).db.tx, rowTx, own, crScn);
  }

  /** A SELECT that starts now sees exactly the system rows, its own rows and the committed rows. */
  lemma FreshSelectSeesCommitted(tx: TxState, rowTx: Option<nat>, own: Option<nat>)
    requires TxOk(tx)
    ensures IsVisible(tx.vis, rowTx, own, tx.scn) <==>
            rowTx.None? || rowTx == own
            || (rowTx.value in tx.vis.statuses && tx.vis.statuses[rowTx.value] == Committed)
  {
  }

  /** A transaction that rolled back is never heard of again: whatever the run, no session holds it
      and rows it may have left behind are visible to nobody. */
  lemma RolledBackStaysInvisible(w: World, steps: seq<Step>, id: nat, sid: nat, crScn: nat)
    requires Inv(w) && NoCrash(steps)
    requires id in w.db.tx.vis.statuses && w.db.tx.vis.statuses[id] == RolledBack
    ensures Play(w, steps).SessionOf(sid).current != Some(id)
    ensures !IsVisible(Play(w, steps).db.tx.vis, Some(id), Play(w, steps).SessionOf(sid).current, crScn)
  {
    RunKeeps(w, steps);
  }

  ghost predicate NobodyHolds(w: World, id: nat) {
    IsActive(w.db.tx, id) && forall s | s in w.sessions :: w.sessions[s].current != Some(id)
  }

  lemma StaysAbandoned(w: World, step: Step, id: nat)
    requires Inv(w) && NobodyHolds(w, id) && !step.Crash?
    ensures NobodyHolds(Next(w, step), id)
  {
    hide Execute, TablesIssued, Later;
    if step.Run? {
      StatementKeeps(w.db, w.SessionOf(step.sid), step.stmt, step.order);
    }
  }

  lemma {:induction false} RunStaysAbandoned(w: World, steps: seq<Step>, id: nat)
    requires Inv(w) && NobodyHolds(w, id) && NoCrash(steps)
    ensures NobodyHolds(Play(w, steps), id)
    decreases |steps|
  {
    hide Inv, Next, NobodyHolds;
    if steps != [] {
      var front := steps[..|steps| - 1];
      RunKeeps(w, front);
      RunStaysAbandoned(w, front, id);
      StaysAbandoned(Play(w, front), steps[|steps| - 1], id);
    }
  }

  /** A client that goes away inside a transaction leaves it active for good: until the next crash no session
      ever holds it, so that it neither commits nor rolls back, and its rows are visible to nobody. */
  lemma AbandonedStaysInvisible(w: World, steps: seq<Step>, gone: nat, id: nat, sid: nat, crScn: nat)
    requires Inv(w) && NoCrash(steps) && w.SessionOf(gone).current == Some(id)
    ensures var after := Play(Next(w, Disconnect(gone)), steps);
            && IsActive(after.db.tx, id) && after.SessionOf(sid).current != Some(id)
            && !IsVisible(after.db.tx.vis, Some(id), after.SessionOf(sid).current, crScn)
  {
    StepKeeps(w, Disconnect(gone));
    RunStaysAbandoned(Next(w, Disconnect(gone)), steps, id);
  }

  function ResponseTo(w: World, step: Step): Result<Response>
    requires step.Run?
  {
    Execute(w.db, w.SessionOf(step.sid), step.stmt, step.order).response
  }

  /** No two BEGINs of one run get the same id. */
  lemma IdsAreNeverReissued(w: World, steps: seq<Step>, i: nat, j: nat)
    requires Inv(w) && NoCrash(steps) && i < j < |steps|
    requires steps[i].Run? && steps[i].stmt == Begin && steps[j].Run? && steps[j].stmt == Begin
    requires ResponseTo(Play(w, steps[..i]), steps[i]).Ok? && ResponseTo(Play(w, steps[..j]), steps[j]).Ok?
    ensures ResponseTo(Play(w, steps[..i]), steps[i]) != ResponseTo(Play(w, steps[..j]), steps[j])
  {
    hide Inv, Play;
    var middle := steps[i + 1..j];
    assert steps[..j] == steps[..i + 1] + middle;
    PlayConcat(w, steps[..i + 1], middle);
    RunKeeps(w, steps[..i]);
    PlayOneMore(w, steps, i);
    StepKeeps(Play(w, steps[..i]), steps[i]);
    RunKeeps(Play(w, steps[..i + 1]), middle);
  }

  lemma PlayOneMore(w: World, steps: seq<Step>, i: nat)
    requires i < |steps|
    ensures Play(w, steps[..i + 1]) == Next(Play(w, steps[..i]), steps[i])
  {
    assert steps[..i + 1][..i] == steps[..i];
  }
}
