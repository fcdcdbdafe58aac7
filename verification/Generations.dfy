/** Any number of crashes: SCNs along the log, the reuse of transaction ids, and exactly when recovery
    still rebuilds what had committed. */
module Generations {
  import opened Wrappers
  import opened Storage
  import opened Transactions
  import opened Sequences
  import opened Meaning
  import opened Handler
  import opened Recovery
  import opened Server
  import opened Lifecycle
  import opened WriteAhead
  import opened Durability

  // The order of SCNs.

  /** SCNs never decrease, and a Commit is above everything before it. */
  ghost predicate ScnOrdered(recs: seq<RedoRecord>) {
    forall i, j | 0 <= i < j < |recs| ::
      recs[i].scn <= recs[j].scn && (recs[j].RedoCommit? ==> recs[i].scn < recs[j].scn)
  }

  ghost predicate ScnsUpTo(recs: seq<RedoRecord>, scn: nat) {
    forall i | 0 <= i < |recs| :: recs[i].scn <= scn
  }

  /** A reissued id begins above every older record of the same id. */
  ghost predicate BeginsAreNew(recs: seq<RedoRecord>) {
    forall i, j | 0 <= i < j < |recs| && recs[j].RedoBegin? && recs[i].txId == recs[j].txId :: recs[i].scn < recs[j].scn
  }

  /** Position b begins the transaction that is still open before position j. */
  predicate OpenBefore(recs: seq<RedoRecord>, b: nat, j: nat, id: nat) {
    && b < j <= |recs| && recs[b].RedoBegin? && recs[b].txId == id
    && forall k | b < k < j && recs[k].txId == id :: recs[k].RedoInsert?
  }

  /** Inserts, Commits and Rollbacks belong to a transaction that was begun and not over. */
  ghost predicate RecordsAreOpen(recs: seq<RedoRecord>) {
    forall j | 0 <= j < |recs| && !recs[j].RedoBegin? :: exists b: nat :: OpenBefore(recs, b, j, recs[j].txId)
  }

  ghost predicate TrailOk(recs: seq<RedoRecord>) {
    && ScnOrdered(recs) && BeginsAreNew(recs) && RecordsAreOpen(recs)
    && (recs != [] ==> recs[0].RedoBegin? && recs[0].txId == 1)
  }

  // The invariant of one generation, which starts at position g of the trail.

  /** The transaction was begun in this generation and is not over. */
  ghost predicate OpenSince(recs: seq<RedoRecord>, g: nat, id: nat) {
    exists b: nat :: g <= b && OpenBefore(recs, b, |recs|, id)
  }

  ghost predicate OldBelow(recs: seq<RedoRecord>, g: nat, scn: nat) {
    && g <= |recs|
    && (forall i | 0 <= i < g :: recs[i].scn < scn)
    && (forall i, j | 0 <= i < g <= j < |recs| :: recs[i].scn < recs[j].scn)
  }

  ghost predicate SessionsOpen(w: World, g: nat) {
    && (forall s | s in w.sessions && w.sessions[s].current.Some? ::
          && w.sessions[s].current.value < w.db.tx.nextTxId
          && OpenSince(Trail(w.db.tx), g, w.sessions[s].current.value))
    && (forall s, r | s in w.sessions && r in w.sessions && s != r && w.sessions[s].current.Some? ::
          w.sessions[s].current != w.sessions[r].current)
    && (Trail(w.db.tx) == [] ==> forall s | s in w.sessions :: w.sessions[s].current.None?)
  }

  ghost predicate IssuedSince(recs: seq<RedoRecord>, g: nat, next: nat) {
    && next >= 1 && (recs == [] ==> next == 1)
    && forall j | g <= j < |recs| :: recs[j].txId < next
  }

  ghost predicate Generation(w: World, g: nat) {
    var tx := w.db.tx;
    && TrailOk(Trail(tx)) && ScnsUpTo(Trail(tx), tx.scn) && OldBelow(Trail(tx), g, tx.scn)
    && IssuedSince(Trail(tx), g, tx.nextTxId) && SessionsOpen(w, g) && EndsTerminal(tx.log)
  }

  // Appending one record.

  /** What a record must satisfy to continue a trail. */
  ghost predicate Continues(recs: seq<RedoRecord>, g: nat, scn: nat, next: nat, rec: RedoRecord) {
    && scn <= rec.scn && (rec.RedoCommit? ==> scn < rec.scn)
    && (if rec.RedoBegin? then rec.txId == next else rec.txId < next && OpenSince(recs, g, rec.txId))
  }

  lemma OrderGrows(recs: seq<RedoRecord>, g: nat, scn: nat, rec: RedoRecord)
    requires ScnOrdered(recs) && ScnsUpTo(recs, scn) && OldBelow(recs, g, scn)
    requires scn <= rec.scn && (rec.RedoCommit? ==> scn < rec.scn)
    ensures ScnOrdered(recs + [rec]) && ScnsUpTo(recs + [rec], rec.scn) && OldBelow(recs + [rec], g, rec.scn)
  {
  }

  lemma BeginsStayNew(recs: seq<RedoRecord>, g: nat, scn: nat, next: nat, rec: RedoRecord)
    requires BeginsAreNew(recs) && OldBelow(recs, g, scn) && IssuedSince(recs, g, next)
    requires scn <= rec.scn && (rec.RedoBegin? ==> rec.txId == next)
    ensures BeginsAreNew(recs + [rec])
  {
  }

  lemma RecordsStayOpen(recs: seq<RedoRecord>, g: nat, rec: RedoRecord)
    requires RecordsAreOpen(recs) && (rec.RedoBegin? || OpenSince(recs, g, rec.txId))
    ensures RecordsAreOpen(recs + [rec])
  {
    var all := recs + [rec];
    forall j | 0 <= j < |all| && !all[j].RedoBegin? ensures exists b: nat :: OpenBefore(all, b, j, all[j].txId) {
      if j < |recs| {
        var b: nat :| OpenBefore(recs, b, j, recs[j].txId);
        assert OpenBefore(all, b, j, all[j].txId);
      } else {
        var b: nat :| g <= b && OpenBefore(recs, b, |recs|, rec.txId);
        assert OpenBefore(all, b, j, all[j].txId);
      }
    }
  }

  lemma TrailGrows(recs: seq<RedoRecord>, g: nat, scn: nat, next: nat, rec: RedoRecord)
    requires TrailOk(recs) && ScnsUpTo(recs, scn) && OldBelow(recs, g, scn) && IssuedSince(recs, g, next)
    requires Continues(recs, g, scn, next, rec)
    ensures TrailOk(recs + [rec]) && ScnsUpTo(recs + [rec], rec.scn) && OldBelow(recs + [rec], g, rec.scn)
  {
    OrderGrows(recs, g, scn, rec);
    BeginsStayNew(recs, g, scn, next, rec);
    RecordsStayOpen(recs, g, rec);
    hide ScnOrdered, BeginsAreNew, RecordsAreOpen, ScnsUpTo, OldBelow;
  }

  lemma StaysOpen(recs: seq<RedoRecord>, g: nat, rec: RedoRecord, id: nat)
    requires OpenSince(recs, g, id) && (rec.txId == id ==> rec.RedoInsert?)
    ensures OpenSince(recs + [rec], g, id)
  {
    var b: nat :| g <= b && OpenBefore(recs, b, |recs|, id);
    assert OpenBefore(recs + [rec], b, |recs| + 1, id);
  }

  lemma OpensNow(recs: seq<RedoRecord>, g: nat, rec: RedoRecord)
    requires rec.RedoBegin? && g <= |recs|
    ensures OpenSince(recs + [rec], g, rec.txId)
  {
    assert OpenBefore(recs + [rec], |recs|, |recs| + 1, rec.txId);
  }

  /** The records of an INSERT, one by one. */
  lemma {:induction false} InsertsGrow(recs: seq<RedoRecord>, g: nat, scn: nat, next: nat, id: nat,
                                       table: string, values: seq<seq<Value>>, firstIdx: nat)
    requires TrailOk(recs) && ScnsUpTo(recs, scn) && OldBelow(recs, g, scn) && IssuedSince(recs, g, next)
    requires id < next && OpenSince(recs, g, id) && recs != []
    ensures var all := recs + InsertRecords(id, scn, table, values, firstIdx);
            && TrailOk(all) && ScnsUpTo(all, scn) && OldBelow(all, g, scn) && IssuedSince(all, g, next)
            && recs <= all
            && forall other: nat | OpenSince(recs, g, other) :: OpenSince(all, g, other)
    decreases |values|
  {
    hide TrailOk, ScnsUpTo, OldBelow, OpenSince;
    if values == [] {
      assert recs + [] == recs;
    } else {
      var rec := RedoInsert(id, scn, table, values[0], firstIdx);
      var rest := InsertRecords(id, scn, table, values[1..], firstIdx + 1);
      TrailGrows(recs, g, scn, next, rec);
      forall other: nat | OpenSince(recs, g, other) ensures OpenSince(recs + [rec], g, other) {
        StaysOpen(recs, g, rec, other);
      }
      InsertsGrow(recs + [rec], g, scn, next, id, table, values[1..], firstIdx + 1);
      assert (recs + [rec]) + rest == recs + ([rec] + rest);
    }
  }

  // One statement.

  lemma SessionsAfter(w: World, after: World, g: nat, sid: nat, rec: RedoRecord)
    requires SessionsOpen(w, g) && IssuedSince(Trail(w.db.tx), g, w.db.tx.nextTxId) && g <= |Trail(w.db.tx)|
    requires Trail(after.db.tx) == Trail(w.db.tx) + [rec] && !rec.RedoInsert?
    requires w.db.tx.nextTxId <= after.db.tx.nextTxId
    requires if rec.RedoBegin? then
               rec.txId == w.db.tx.nextTxId < after.db.tx.nextTxId && after.SessionOf(sid).current == Some(rec.txId)
             else w.SessionOf(sid).current == Some(rec.txId) && after.SessionOf(sid).current == None
    requires after.sessions == w.sessions[sid := after.SessionOf(sid)]
    ensures SessionsOpen(after, g)
  {
    hide OpenSince;
    var recs := Trail(w.db.tx);
    forall s | s in after.sessions && after.sessions[s].current.Some?
      ensures after.sessions[s].current.value < after.db.tx.nextTxId
      ensures OpenSince(Trail(after.db.tx), g, after.sessions[s].current.value)
    {
      if s == sid {
        OpensNow(recs, g, rec);
      } else {
        assert w.sessions[s].current == after.sessions[s].current;
        StaysOpen(recs, g, rec, w.sessions[s].current.value);
      }
    }
  }

  lemma EndingStatementKeeps(w: World, sid: nat, stmt: Statement, order: HashOrder, g: nat)
    requires Generation(w, g) && (stmt.Begin? || stmt.Commit? || stmt.Rollback?)
    ensures Generation(Next(w, Run(sid, stmt, order)), g)
  {
    hide TrailOk, ScnsUpTo, OldBelow, SessionsOpen, Trail, UndoAll, OpenSince;
    var session := w.SessionOf(sid);
    var after := Next(w, Run(sid, stmt, order));
    var recs, tx := Trail(w.db.tx), w.db.tx;
    StatementTrail(w.db, session, stmt, order);
    if Logs(w.db, session, stmt) == [] {
      assert recs + [] == recs;
      SameSessions(w, after, g, sid);
    } else {
      var rec := Logs(w.db, session, stmt)[0];
      OpenSession(w, sid, g);
      BoundedStart(recs, g, tx.scn);
      TrailGrows(recs, g, tx.scn, tx.nextTxId, rec);
      SessionsAfter(w, after, g, sid, rec);
      assert IssuedSince(recs + [rec], g, after.db.tx.nextTxId);
    }
  }

  lemma BoundedStart(recs: seq<RedoRecord>, g: nat, scn: nat)
    requires OldBelow(recs, g, scn)
    ensures g <= |recs|
  {
  }

  lemma OpenSession(w: World, sid: nat, g: nat)
    requires SessionsOpen(w, g)
    ensures w.SessionOf(sid).current.Some? ==>
              && w.SessionOf(sid).current.value < w.db.tx.nextTxId
              && OpenSince(Trail(w.db.tx), g, w.SessionOf(sid).current.value)
              && Trail(w.db.tx) != []
  {
  }

  lemma SameSessions(w: World, after: World, g: nat, sid: nat)
    requires SessionsOpen(w, g)
    requires Trail(after.db.tx) == Trail(w.db.tx) && after.db.tx.nextTxId == w.db.tx.nextTxId
    requires after.sessions == w.sessions[sid := after.SessionOf(sid)]
    requires after.SessionOf(sid).current == w.SessionOf(sid).current
    ensures SessionsOpen(after, g)
  {
    hide OpenSince, Trail;
  }

  lemma InsertStatementKeeps(w: World, sid: nat, stmt: Statement, order: HashOrder, g: nat)
    requires Generation(w, g) && stmt.InsertInto?
    ensures Generation(Next(w, Run(sid, stmt, order)), g)
  {
    hide TrailOk, ScnsUpTo, OldBelow, SessionsOpen, Trail, OpenSince, InsertRows, Accepted, Lower, IssuedSince;
    var session := w.SessionOf(sid);
    var after := Next(w, Run(sid, stmt, order));
    var recs, tx, t := Trail(w.db.tx), w.db.tx, Lower(stmt.name);
    StatementTrail(w.db, session, stmt, order);
    OpenSession(w, sid, g);
    if session.current.Some? && t in w.db.catalog && t in w.db.tables {
      var values := Accepted(stmt.rows, |w.db.catalog[t].columns|);
      InsertsGrow(recs, g, tx.scn, tx.nextTxId, session.current.value, t, values, |w.db.tables[t]|);
      MoreInserts(w, after, g, sid);
    } else {
      assert recs + [] == recs;
      SameSessions(w, after, g, sid);
    }
  }

  lemma MoreInserts(w: World, after: World, g: nat, sid: nat)
    requires SessionsOpen(w, g)
    requires Trail(w.db.tx) <= Trail(after.db.tx) && after.db.tx.nextTxId == w.db.tx.nextTxId
    requires forall other: nat | OpenSince(Trail(w.db.tx), g, other) :: OpenSince(Trail(after.db.tx), g, other)
    requires after.sessions == w.sessions[sid := after.SessionOf(sid)]
    requires after.SessionOf(sid).current == w.SessionOf(sid).current
    ensures SessionsOpen(after, g)
  {
    hide OpenSince, Trail;
  }

  lemma OtherStatementKeeps(w: World, sid: nat, stmt: Statement, order: HashOrder, g: nat)
    requires Generation(w, g) && (stmt.CreateTable? || stmt.Query?)
    ensures Generation(Next(w, Run(sid, stmt, order)), g)
  {
    hide TrailOk, ScnsUpTo, OldBelow, SessionsOpen, Trail, QueryResult, Lower, IssuedSince;
    SameSessions(w, Next(w, Run(sid, stmt, order)), g, sid);
  }

  // A crash.

  lemma PrefixOk(recs: seq<RedoRecord>, n: nat)
    requires TrailOk(recs) && n <= |recs|
    ensures TrailOk(recs[..n])
  {
    var front := recs[..n];
    assert ScnOrdered(front) && BeginsAreNew(front);
    hide ScnOrdered, BeginsAreNew;
    forall j | 0 <= j < |front| && !front[j].RedoBegin? ensures exists b: nat :: OpenBefore(front, b, j, front[j].txId) {
      var b: nat :| OpenBefore(recs, b, j, recs[j].txId);
      assert OpenBefore(front, b, j, front[j].txId);
    }
  }

  lemma {:induction false} ReplayedMax(recs: seq<RedoRecord>)
    ensures ScnsUpTo(recs, ReplayAll(EmptyReplay(), recs).maxScn)
    decreases |recs|
  {
    if recs != [] {
      ReplayedMax(recs[..|recs| - 1]);
    }
  }

  /** A restarted server: the log as it was, nothing buffered, ids from 1, the clock above the log. */
  lemma BootedTx(log: seq<RedoRecord>)
    ensures var tx := Booted(log).tx;
            && tx.log == log && tx.buffer == [] && tx.nextTxId == 1
            && forall i | 0 <= i < |log| :: log[i].scn < tx.scn
  {
    ReplayedMax(log);
    hide ReplayAll;
  }

  lemma RebootIsAGeneration(log: seq<RedoRecord>)
    requires TrailOk(log) && EndsTerminal(log)
    ensures Generation(World(Booted(log), map[]), |log|)
  {
    BootedTx(log);
    hide TrailOk, Booted, OpenSince;
    assert Trail(Booted(log).tx) == log;
  }

  lemma LogOfGeneration(w: World, g: nat)
    requires Generation(w, g)
    ensures TrailOk(w.db.tx.log) && EndsTerminal(w.db.tx.log)
  {
    hide TrailOk, SessionsOpen, IssuedSince, ScnsUpTo, OldBelow;
    var log := w.db.tx.log;
    assert Trail(w.db.tx)[..|log|] == log;
    PrefixOk(Trail(w.db.tx), |log|);
  }

  lemma CrashKeeps(w: World, g: nat)
    requires Generation(w, g)
    ensures Generation(Next(w, Crash), |w.db.tx.log|)
  {
    hide Generation, TrailOk, EndsTerminal, Booted;
    LogOfGeneration(w, g);
    RebootIsAGeneration(w.db.tx.log);
  }

  lemma StepKeepsGeneration(w: World, step: Step, g: nat)
    requires Generation(w, g)
    ensures Generation(Next(w, step), if step.Crash? then |w.db.tx.log| else g)
  {
    hide Generation, Execute, Booted;
    match step
    case Crash => CrashKeeps(w, g);
    case Disconnect(sid) => DisconnectKeeps(w, sid, g);
    case Run(sid, stmt, order) =>
      if stmt.InsertInto? {
        InsertStatementKeeps(w, sid, stmt, order, g);
      } else if stmt.CreateTable? || stmt.Query? {
        OtherStatementKeeps(w, sid, stmt, order, g);
      } else {
        EndingStatementKeeps(w, sid, stmt, order, g);
      }
  }

  lemma DisconnectKeeps(w: World, sid: nat, g: nat)
    requires Generation(w, g)
    ensures Generation(Next(w, Disconnect(sid)), g)
  {
    hide TrailOk, ScnsUpTo, OldBelow, Trail, IssuedSince, OpenSince;
  }

  ghost predicate SomeGeneration(w: World) {
    exists g: nat :: Generation(w, g)
  }

  /** Every state of every run, crashes included, is inside some generation. */
  lemma {:induction false} EveryRunIsInAGeneration(steps: seq<Step>)
    ensures SomeGeneration(Play(Fresh(), steps))
    decreases |steps|
  {
    hide Generation, Next;
    if steps == [] {
      FreshGeneration();
    } else {
      var n := |steps| - 1;
      EveryRunIsInAGeneration(steps[..n]);
      var g: nat :| Generation(Play(Fresh(), steps[..n]), g);
      StepKeepsGeneration(Play(Fresh(), steps[..n]), steps[n], g);
    }
  }

  lemma FreshGeneration()
    ensures Generation(Fresh(), 0)
  {
    assert Trail(Fresh().db.tx) == [];
  }

  /** Over any number of crashes and recoveries SCNs along the disk log never decrease, every Commit is
      above all records before it, and so no two commits share an SCN. */
  lemma ScnsIncreaseAcrossCrashes(steps: seq<Step>)
    ensures var log := Play(Fresh(), steps).db.tx.log;
            && ScnOrdered(log)
            && (forall i, j | 0 <= i < j < |log| && log[i].RedoCommit? && log[j].RedoCommit? :: log[i].scn != log[j].scn)
            && ScnsUpTo(log, Play(Fresh(), steps).db.tx.scn)
  {
    hide Play, Fresh;
    EveryRunIsInAGeneration(steps);
    var w := Play(Fresh(), steps);
    var g: nat :| Generation(w, g);
    assert Trail(w.db.tx)[..|w.db.tx.log|] == w.db.tx.log;
    PrefixOk(Trail(w.db.tx), |w.db.tx.log|);
  }
}
