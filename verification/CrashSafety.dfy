/** Reissued ids and what clients see: exactly when the answers after a restart are right, exactly which
    statements keep them right, and exactly when a BEGIN hides rows that were there. */
module CrashSafety {
  import opened Wrappers
  import opened Storage
  import opened Catalog
  import opened Planner
  import opened Transactions
  import opened Sequences
  import opened Meaning
  import opened Handler
  import opened Recovery
  import opened Server
  import opened Lifecycle
  import opened WriteAhead
  import opened Durability
  import opened RollbackDiscipline
  import opened Generations
  import opened IdReuse
  import opened Isolation
  import opened Restart

  // What a restarted server shows.

  /** The last record of an id that is not an Insert is a Commit. */
  predicate LastIsCommit(recs: seq<RedoRecord>, id: nat) {
    if recs == [] then false
    else
      var last := recs[|recs| - 1];
      if EndsOrBegins(last, id) then last.RedoCommit? else LastIsCommit(recs[..|recs| - 1], id)
  }

  /** Whether the rows logged under an id are there and visible after a restart. */
  predicate ShownAfter(recs: seq<RedoRecord>, id: nat) {
    LastIsCommit(recs, id) && !RollsBackIn(recs, id)
  }

  /** Every logged row is shown after a restart if and only if its own transaction committed. */
  ghost predicate Faithful(recs: seq<RedoRecord>) {
    forall i | 0 <= i < |recs| && recs[i].RedoInsert? ::
      GoesOnToCommit(recs[i + 1..], recs[i].txId) <==> ShownAfter(recs, recs[i].txId)
  }

  predicate RowShown(recs: seq<RedoRecord>, row: Tuple) {
    row.txId.Some? && ShownAfter(recs, row.txId.value)
  }

  lemma {:induction false} LastCommitCommits(recs: seq<RedoRecord>, id: nat)
    requires LastIsCommit(recs, id)
    ensures CommitsIn(recs, id)
    decreases |recs|
  {
    var n := |recs| - 1;
    if EndsOrBegins(recs[n], id) {
      assert recs[n].RedoCommit? && recs[n].txId == id;
    } else {
      LastCommitCommits(recs[..n], id);
      MoreCommits(recs, id);
    }
  }

  /** After replay an id counts as committed exactly if its last record but Inserts is a Commit. */
  lemma {:induction false} ReplayedVisibility(recs: seq<RedoRecord>, id: nat)
    ensures var r := ReplayAll(EmptyReplay(), recs);
            && (id in r.vis.statuses && r.vis.statuses[id] == Committed <==> LastIsCommit(recs, id))
            && (LastIsCommit(recs, id) ==> id in r.vis.commitScns)
            && (id in r.vis.commitScns ==> r.vis.commitScns[id] <= r.maxScn)
    decreases |recs|
  {
    if recs != [] {
      ReplayedVisibility(recs[..|recs| - 1], id);
    }
  }

  lemma BootedVisibility(log: seq<RedoRecord>, id: nat)
    ensures var tx := Booted(log).tx; IsVisible(tx.vis, Some(id), None, tx.scn) <==> LastIsCommit(log, id)
  {
    hide ReplayAll;
    if log != [] {
      ReplayedVisibility(log, id);
    }
  }

  /** The recovered rows that the first reader sees. */
  lemma BootedRowsShown(log: seq<RedoRecord>, t: string)
    ensures var db := Booted(log);
            Select(RowsIn(db.tables, t), (row: Tuple) => IsVisible(db.tx.vis, row.txId, None, db.tx.scn)) ==
            Select(LoggedRows(log, t), (row: Tuple) => RowShown(log, row))
  {
    hide Booted, LoggedRows, LastIsCommit, RollsBackIn, CommitsIn;
    var db, rows := Booted(log), LoggedRows(log, t);
    BootedRows(log, t);
    LoggedRowsOwners(log, t);
    var kept := (row: Tuple) => Kept(log, row);
    var seen := (row: Tuple) => IsVisible(db.tx.vis, row.txId, None, db.tx.scn);
    var shown := (row: Tuple) => RowShown(log, row);
    forall i | 0 <= i < |rows| ensures shown(rows[i]) == (kept(rows[i]) && seen(rows[i])) {
      assert InsertedBy(log, rows[i]);
      var id := rows[i].txId.value;
      BootedVisibility(log, id);
      if LastIsCommit(log, id) {
        LastCommitCommits(log, id);
      }
    }
    SelectTwice(rows, kept, seen, shown);
  }

  lemma FaithfulAgrees(log: seq<RedoRecord>)
    ensures Faithful(log) <==> Agrees(log, (row: Tuple) => RowShown(log, row))
  {
    hide ShownAfter, GoesOnToCommit;
  }

  /** What a restarted server answers to a scan of t. */
  lemma RestartShows(w: World, sid: nat, reader: nat, demo: seq<DemoTable>, t: string, schema: Schema, order: HashOrder)
    requires DemoOk(demo) && Lower(t) == t
    ensures Scanned(Recreated(w, sid, demo, t, schema, order), reader, t, order) ==
            Ok(Select(LoggedRows(w.db.tx.log, t), (row: Tuple) => RowShown(w.db.tx.log, row))
               + DemoRows(demo, t, Booted(w.db.tx.log).tx.scn))
  {
    hide Booted, LoggedRows, RowShown, Scanned, Recreated, DemoOk, Lower, DemoRows, IsVisible;
    RestartAnswers(w, sid, reader, demo, t, schema, order);
    BootedRowsShown(w.db.tx.log, t);
  }

  // Table names in the log.

  ghost predicate NamesLower(recs: seq<RedoRecord>) {
    forall i | 0 <= i < |recs| && recs[i].RedoInsert? :: Lower(recs[i].table) == recs[i].table
  }

  lemma {:induction false} InsertNames(tx: nat, scn: nat, table: string, values: seq<seq<Value>>, firstIdx: nat)
    requires Lower(table) == table
    ensures NamesLower(InsertRecords(tx, scn, table, values, firstIdx))
  {
    hide Lower;
    if values != [] {
      InsertNames(tx, scn, table, values[1..], firstIdx + 1);
    }
  }

  lemma LoggedNames(db: Db, session: Session, stmt: Statement)
    ensures NamesLower(Logs(db, session, stmt))
  {
    hide Lower, Accepted;
    if stmt.InsertInto? && session.current.Some? && Lower(stmt.name) in db.catalog && Lower(stmt.name) in db.tables {
      var t := Lower(stmt.name);
      LowerTwice(stmt.name);
      InsertNames(session.current.value, db.tx.scn, t, Accepted(stmt.rows, |db.catalog[t].columns|), |db.tables[t]|);
    }
  }

  lemma LowerTwice(s: string)
    ensures Lower(Lower(s)) == Lower(s)
  {
  }

  lemma {:induction false} TrailNamesLower(steps: seq<Step>)
    ensures NamesLower(Trail(Play(Fresh(), steps).db.tx))
    decreases |steps|
  {
    hide Lower, Execute, Logs, Booted;
    if steps == [] {
      BootedTx([]);
    } else {
      var n := |steps| - 1;
      TrailNamesLower(steps[..n]);
      var w := Play(Fresh(), steps[..n]);
      match steps[n]
      case Run(sid, stmt, order) =>
        StatementTrail(w.db, w.SessionOf(sid), stmt, order);
        LoggedNames(w.db, w.SessionOf(sid), stmt);
      case Disconnect(_) =>
      case Crash =>
        BootedTx(w.db.tx.log);
        LogNames(w.db.tx);
    }
  }

  lemma LogNames(tx: TxState)
    requires NamesLower(Trail(tx))
    ensures NamesLower(tx.log)
  {
    hide Lower;
    forall i | 0 <= i < |tx.log| && tx.log[i].RedoInsert? ensures Lower(tx.log[i].table) == tx.log[i].table {
      assert Trail(tx)[i] == tx.log[i];
    }
  }

  /** A restarted server answers every scan with the rows whose own transactions committed, and those
      of its boot script. */
  ghost predicate RestartAnswersOwed(w: World, sid: nat, reader: nat, demo: seq<DemoTable>, schema: Schema, order: HashOrder) {
    forall t | Lower(t) == t ::
      Scanned(Recreated(w, sid, demo, t, schema, order), reader, t, order) ==
      Ok(OwedRows(w.db.tx.log, t) + DemoRows(demo, t, Booted(w.db.tx.log).tx.scn))
  }

  lemma SameEnd(a: seq<Tuple>, b: seq<Tuple>, end: seq<Tuple>)
    requires a + end == b + end
    ensures a == b
  {
    assert |a| == |b|;
    assert (a + end)[..|a|] == a && (b + end)[..|b|] == b;
  }

  /** In every run, whatever crashes it has seen: a restart now answers every scan with exactly the
      rows whose own transactions committed if and only if the log is faithful. */
  lemma RestartAnswersOwedIff(steps: seq<Step>, sid: nat, reader: nat, demo: seq<DemoTable>, schema: Schema, order: HashOrder)
    requires DemoOk(demo)
    ensures RestartAnswersOwed(Play(Fresh(), steps), sid, reader, demo, schema, order) <==>
            Faithful(Play(Fresh(), steps).db.tx.log)
  {
    LogIsOk(steps);
    TrailNamesLower(steps);
    LogNames(Play(Fresh(), steps).db.tx);
    hide Play, Fresh;
    AnswersOwedIff(Play(Fresh(), steps), sid, reader, demo, schema, order);
  }

  lemma AnswersOwedIff(w: World, sid: nat, reader: nat, demo: seq<DemoTable>, schema: Schema, order: HashOrder)
    requires DemoOk(demo) && TrailOk(w.db.tx.log) && NamesLower(w.db.tx.log)
    ensures RestartAnswersOwed(w, sid, reader, demo, schema, order) <==> Faithful(w.db.tx.log)
  {
    hide Booted, LoggedRows, RowShown, Scanned, Recreated, DemoOk, Lower, DemoRows, OwedRows, Faithful, TrailOk, Agrees;
    var log, scn := w.db.tx.log, Booted(w.db.tx.log).tx.scn;
    var shown := (row: Tuple) => RowShown(log, row);
    FaithfulAgrees(log);
    if Faithful(log) {
      forall t | Lower(t) == t
        ensures Scanned(Recreated(w, sid, demo, t, schema, order), reader, t, order) == Ok(OwedRows(log, t) + DemoRows(demo, t, scn))
      {
        RestartShows(w, sid, reader, demo, t, schema, order);
        AgreeingIsExact(log, 0, t, shown);
        assert log[0..] == log;
      }
    }
    if RestartAnswersOwed(w, sid, reader, demo, schema, order) {
      forall i | 0 <= i < |log| && log[i].RedoInsert?
        ensures Select(LoggedRows(log, log[i].table), shown) == OwedRows(log, log[i].table)
      {
        var t := log[i].table;
        RestartShows(w, sid, reader, demo, t, schema, order);
        SameEnd(Select(LoggedRows(log, t), shown), OwedRows(log, t), DemoRows(demo, t, scn));
      }
      ExactAgrees(log, shown);
    }
  }

  // Which statements keep a log faithful.

  /** The transaction of this id that was running has neither ended nor begun again. */
  predicate Undecided(rest: seq<RedoRecord>, id: nat) {
    forall k | 0 <= k < |rest| :: !EndsOrBegins(rest[k], id)
  }

  /** No row that a restart would show carries the id about to be issued. */
  ghost predicate BeginGuard(recs: seq<RedoRecord>, id: nat) {
    ShownAfter(recs, id) ==> forall i | 0 <= i < |recs| && recs[i].RedoInsert? :: recs[i].txId != id
  }

  /** If some transaction of this id has rolled back, the committing one has inserted nothing; otherwise
      every row logged under the id is its own. */
  ghost predicate CommitGuard(recs: seq<RedoRecord>, id: nat) {
    forall i | 0 <= i < |recs| && recs[i].RedoInsert? && recs[i].txId == id ::
      if RollsBackIn(recs, id) then !Undecided(recs[i + 1..], id) else Undecided(recs[i + 1..], id)
  }

  lemma {:induction false} FateAppend(rest: seq<RedoRecord>, rec: RedoRecord, id: nat)
    ensures GoesOnToCommit(rest + [rec], id) <==>
            GoesOnToCommit(rest, id) || (Undecided(rest, id) && EndsOrBegins(rec, id) && rec.RedoCommit?)
  {
    if rest == [] {
      assert [] + [rec] == [rec];
    } else {
      FateAppend(rest[1..], rec, id);
      assert (rest + [rec])[1..] == rest[1..] + [rec];
      assert Undecided(rest, id) <==> !EndsOrBegins(rest[0], id) && Undecided(rest[1..], id) by {
        UndecidedTail(rest, id);
      }
    }
  }

  lemma UndecidedTail(rest: seq<RedoRecord>, id: nat)
    requires rest != []
    ensures Undecided(rest, id) <==> !EndsOrBegins(rest[0], id) && Undecided(rest[1..], id)
  {
    if Undecided(rest[1..], id) {
      assert forall k | 0 < k < |rest| :: rest[k] == rest[1..][k - 1];
    }
  }

  lemma ShownAppend(recs: seq<RedoRecord>, rec: RedoRecord, id: nat)
    ensures LastIsCommit(recs + [rec], id) <==> if EndsOrBegins(rec, id) then rec.RedoCommit? else LastIsCommit(recs, id)
    ensures RollsBackIn(recs + [rec], id) <==> RollsBackIn(recs, id) || (rec.RedoRollback? && rec.txId == id)
  {
    assert (recs + [rec])[..|recs|] == recs;
    MoreCommits(recs + [rec], id);
  }

  /** What one more record means for one logged row. */
  ghost predicate RowFaithful(recs: seq<RedoRecord>, i: nat)
    requires i < |recs|
  {
    GoesOnToCommit(recs[i + 1..], recs[i].txId) <==> ShownAfter(recs, recs[i].txId)
  }

  lemma RowFaithfulAppend(recs: seq<RedoRecord>, rec: RedoRecord, i: nat)
    requires i < |recs| && RowFaithful(recs, i)
    requires EndsOrBegins(rec, recs[i].txId) && !rec.RedoBegin? ==> !LastIsCommit(recs, recs[i].txId)
    ensures var id := recs[i].txId;
            RowFaithful(recs + [rec], i) <==>
            match rec
            case RedoBegin(x, _) => x != id || !ShownAfter(recs, id)
            case RedoCommit(x, _) => x != id || (Undecided(recs[i + 1..], id) <==> !RollsBackIn(recs, id))
            case _ => true
  {
    hide LastIsCommit, RollsBackIn, GoesOnToCommit, Undecided;
    var id := recs[i].txId;
    assert (recs + [rec])[i + 1..] == recs[i + 1..] + [rec];
    FateAppend(recs[i + 1..], rec, id);
    ShownAppend(recs, rec, id);
  }

  /** An Insert of a running transaction is not committed yet and is not shown. */
  lemma NewRowFaithful(recs: seq<RedoRecord>, rec: RedoRecord)
    requires rec.RedoInsert? && !LastIsCommit(recs, rec.txId)
    ensures RowFaithful(recs + [rec], |recs|)
  {
    ShownAppend(recs, rec, rec.txId);
    assert (recs + [rec])[|recs| + 1..] == [];
  }

  ghost predicate Guard(recs: seq<RedoRecord>, rec: RedoRecord) {
    match rec
    case RedoBegin(id, _) => BeginGuard(recs, id)
    case RedoCommit(id, _) => CommitGuard(recs, id)
    case _ => true
  }

  /** One record more keeps a log faithful if and only if it passes its guard. */
  lemma RecordFaithfulIff(recs: seq<RedoRecord>, rec: RedoRecord)
    requires Faithful(recs)
    requires !rec.RedoBegin? ==> !LastIsCommit(recs, rec.txId)
    ensures Faithful(recs + [rec]) <==> Guard(recs, rec)
  {
    hide LastIsCommit, RollsBackIn, GoesOnToCommit, Undecided, ShownAfter;
    var all := recs + [rec];
    forall i | 0 <= i < |recs| && recs[i].RedoInsert?
      ensures RowFaithful(all, i) <==>
              match rec
              case RedoBegin(x, _) => x != recs[i].txId || !ShownAfter(recs, recs[i].txId)
              case RedoCommit(x, _) => x != recs[i].txId || (Undecided(recs[i + 1..], recs[i].txId) <==> !RollsBackIn(recs, recs[i].txId))
              case _ => true
    {
      assert RowFaithful(recs, i);
      RowFaithfulAppend(recs, rec, i);
    }
    if rec.RedoInsert? {
      NewRowFaithful(recs, rec);
    }
    FaithfulRows(all);
    hide RowFaithful, Faithful;
    assert forall i | 0 <= i < |recs| :: all[i] == recs[i];
    if Guard(recs, rec) {
      forall i | 0 <= i < |all| && all[i].RedoInsert? ensures RowFaithful(all, i) {
        if i < |recs| {
          assert recs[i].RedoInsert?;
        }
      }
    }
    if Faithful(all) {
      forall i | 0 <= i < |recs| && recs[i].RedoInsert? ensures RowFaithful(all, i) {
        assert all[i].RedoInsert?;
      }
    }
  }

  lemma FaithfulRows(recs: seq<RedoRecord>)
    ensures Faithful(recs) <==> forall i | 0 <= i < |recs| && recs[i].RedoInsert? :: RowFaithful(recs, i)
  {
    hide ShownAfter, GoesOnToCommit;
  }

  /** A running transaction is not committed. */
  lemma {:induction false} OpenIsNotCommitted(recs: seq<RedoRecord>, b: nat, n: nat, id: nat)
    requires b < n <= |recs| && OpenBefore(recs, b, |recs|, id)
    ensures !LastIsCommit(recs[..n], id)
    decreases n
  {
    assert recs[..n][..n - 1] == recs[..n - 1];
    if n - 1 > b {
      OpenIsNotCommitted(recs, b, n - 1, id);
    }
  }

  lemma OpenNotCommitted(recs: seq<RedoRecord>, g: nat, id: nat)
    requires OpenSince(recs, g, id)
    ensures !LastIsCommit(recs, id)
  {
    var b: nat :| g <= b && OpenBefore(recs, b, |recs|, id);
    OpenIsNotCommitted(recs, b, |recs|, id);
    assert recs[..|recs|] == recs;
  }

  lemma {:induction false} InsertsFaithful(recs: seq<RedoRecord>, tx: nat, scn: nat, table: string, values: seq<seq<Value>>, firstIdx: nat)
    requires Faithful(recs) && !LastIsCommit(recs, tx)
    ensures Faithful(recs + InsertRecords(tx, scn, table, values, firstIdx))
    decreases |values|
  {
    hide Faithful, LastIsCommit;
    if values == [] {
      assert recs + [] == recs;
    } else {
      var rec := RedoInsert(tx, scn, table, values[0], firstIdx);
      RecordFaithfulIff(recs, rec);
      ShownAppend(recs, rec, tx);
      InsertsFaithful(recs + [rec], tx, scn, table, values[1..], firstIdx + 1);
      assert recs + ([rec] + InsertRecords(tx, scn, table, values[1..], firstIdx + 1)) ==
             (recs + [rec]) + InsertRecords(tx, scn, table, values[1..], firstIdx + 1);
    }
  }

  /** What a caller can check in the log and the buffer before a statement. */
  ghost predicate Guarded(db: Db, session: Session, stmt: Statement) {
    match stmt
    case Begin => session.current.None? ==> BeginGuard(Trail(db.tx), db.tx.nextTxId)
    case Commit => session.current.Some? ==> CommitGuard(Trail(db.tx), session.current.value)
    case _ => true
  }

  /** The log on disk is faithful, and stays so if the buffer is written out. */
  ghost predicate Sound(tx: TxState) {
    Faithful(tx.log) && Faithful(Trail(tx))
  }

  /** The log only moves when a transaction ends, and then takes everything. */
  lemma LogMoves(db: Db, session: Session, stmt: Statement, order: HashOrder)
    ensures var after := Execute(db, session, stmt, order).db.tx;
            if (stmt == Commit || stmt == Rollback) && session.current.Some? then after.log == Trail(after) else after.log == db.tx.log
  {
    hide QueryResult, UndoAll, InsertRows, Lower, Accepted;
    if stmt.InsertInto? {
      var t := Lower(stmt.name);
      if t in db.catalog && t in db.tables {
        InsertKeepsLog(db, t, |db.catalog[t].columns|, session.current, stmt.rows, 0);
      }
    }
    var after := Execute(db, session, stmt, order).db.tx;
    assert after.buffer == [] ==> after.log + after.buffer == after.log;
  }

  lemma {:induction false} InsertKeepsLog(db: Db, name: string, width: nat, tx: Option<nat>, rows: seq<seq<Expr>>, count: nat)
    requires name in db.tables
    ensures InsertRows(db, name, width, tx, rows, count).0.tx.log == db.tx.log
    decreases |rows|
  {
    if rows != [] && RowValues(rows[0], width).Ok? {
      InsertKeepsLog(InsertRow(db, name, tx, RowValues(rows[0], width).value), name, width, tx, rows[1..], count + 1);
    }
  }

  /** In any state of any run a statement keeps the answers after a restart right if and only if it passes
      its guard: only BEGIN and COMMIT can spoil them. */
  lemma StatementSoundIff(w: World, sid: nat, stmt: Statement, order: HashOrder, g: nat)
    requires Generation(w, g) && Sound(w.db.tx)
    ensures Sound(Next(w, Run(sid, stmt, order)).db.tx) <==> Guarded(w.db, w.SessionOf(sid), stmt)
  {
    hide TrailOk, ScnsUpTo, OldBelow, IssuedSince, Faithful, Execute, BeginGuard, CommitGuard, OpenSince, Accepted, Lower, LastIsCommit;
    var session, recs := w.SessionOf(sid), Trail(w.db.tx);
    StatementTrail(w.db, session, stmt, order);
    LogMoves(w.db, session, stmt, order);
    OpenSession(w, sid, g);
    if session.current.Some? {
      OpenNotCommitted(recs, g, session.current.value);
    }
    var logs := Logs(w.db, session, stmt);
    if logs == [] {
      assert recs + [] == recs;
    } else if stmt.InsertInto? {
      var t := Lower(stmt.name);
      InsertsFaithful(recs, session.current.value, w.db.tx.scn, t, Accepted(stmt.rows, |w.db.catalog[t].columns|), |w.db.tables[t]|);
    } else {
      RecordFaithfulIff(recs, logs[0]);
    }
  }

  // Whole runs.

  ghost predicate GuardedStep(w: World, step: Step) {
    step.Run? ==> Guarded(w.db, w.SessionOf(step.sid), step.stmt)
  }

  /** Every statement passes its guard in the state it runs in. */
  ghost predicate GuardedRun(steps: seq<Step>) {
    forall i | 0 <= i < |steps| :: GuardedStep(Play(Fresh(), steps[..i]), steps[i])
  }

  ghost predicate SoundAt(steps: seq<Step>, n: nat)
    requires n <= |steps|
  {
    Sound(Play(Fresh(), steps[..n]).db.tx)
  }

  ghost predicate SoundRun(steps: seq<Step>) {
    forall n: nat | n <= |steps| :: SoundAt(steps, n)
  }

  lemma StepSoundIff(w: World, step: Step)
    requires SomeGeneration(w) && Sound(w.db.tx)
    ensures Sound(Next(w, step).db.tx) <==> GuardedStep(w, step)
  {
    hide Generation, Faithful, Execute, Guarded, Booted;
    var g: nat :| Generation(w, g);
    match step
    case Run(sid, stmt, order) => StatementSoundIff(w, sid, stmt, order, g);
    case Disconnect(_) =>
    case Crash =>
      BootedTx(w.db.tx.log);
      assert w.db.tx.log + [] == w.db.tx.log;
  }

  lemma FreshIsSound()
    ensures Sound(Fresh().db.tx)
  {
  }

  lemma GuardedPrefix(steps: seq<Step>)
    requires steps != []
    ensures var n := |steps| - 1;
            GuardedRun(steps) <==> GuardedRun(steps[..n]) && GuardedStep(Play(Fresh(), steps[..n]), steps[n])
  {
    hide Play, Fresh, GuardedStep;
    var n := |steps| - 1;
    var front := steps[..n];
    forall i | 0 <= i < n
      ensures GuardedStep(Play(Fresh(), front[..i]), front[i]) <==> GuardedStep(Play(Fresh(), steps[..i]), steps[i])
    {
      assert front[..i] == steps[..i] && front[i] == steps[i];
    }
  }

  lemma SoundAtPrefix(steps: seq<Step>, n: nat, i: nat)
    requires i <= n <= |steps|
    ensures SoundAt(steps[..n], i) == SoundAt(steps, i)
  {
    hide Play, Fresh, Sound;
    assert steps[..n][..i] == steps[..i];
  }

  lemma SoundAtEnd(steps: seq<Step>)
    ensures SoundAt(steps, |steps|) == Sound(Play(Fresh(), steps).db.tx)
  {
    hide Play, Fresh, Sound;
    assert steps[..|steps|] == steps;
  }

  lemma SoundPrefix(steps: seq<Step>)
    requires steps != []
    ensures SoundRun(steps) <==> SoundRun(steps[..|steps| - 1]) && Sound(Play(Fresh(), steps).db.tx)
  {
    hide Play, Fresh, Sound, SoundAt;
    var n := |steps| - 1;
    SoundAtEnd(steps);
    forall i: nat | i <= n ensures SoundAt(steps[..n], i) == SoundAt(steps, i) {
      SoundAtPrefix(steps, n, i);
    }
  }

  /** Over any number of crashes: the log is sound at every point of a run if and only if every BEGIN and
      every COMMIT of the run passed its guard. */
  lemma {:induction false} GuardedRunIff(steps: seq<Step>)
    ensures GuardedRun(steps) <==> SoundRun(steps)
    decreases |steps|
  {
    hide Play, Fresh, GuardedStep, Sound, GuardedRun, SoundRun, SomeGeneration, Next;
    if steps == [] {
      EmptyRun();
    } else {
      var n := |steps| - 1;
      GuardedRunIff(steps[..n]);
      GuardedPrefix(steps);
      SoundPrefix(steps);
      if SoundRun(steps[..n]) {
        EveryRunIsInAGeneration(steps[..n]);
        LastSound(steps[..n]);
        StepSoundIff(Play(Fresh(), steps[..n]), steps[n]);
        PlayedLast(steps);
      }
    }
  }

  lemma EmptyRun()
    ensures GuardedRun([]) && SoundRun([])
  {
    FreshIsSound();
    hide Sound, Fresh;
  }

  lemma LastSound(steps: seq<Step>)
    requires SoundRun(steps)
    ensures Sound(Play(Fresh(), steps).db.tx)
  {
    hide Play, Fresh, Sound, SoundAt;
    assert SoundAt(steps, |steps|);
    SoundAtEnd(steps);
  }

  lemma PlayedLast(steps: seq<Step>)
    requires steps != []
    ensures Play(Fresh(), steps) == Next(Play(Fresh(), steps[..|steps| - 1]), steps[|steps| - 1])
  {
  }

  /** So a guarded run may crash and restart at any point, any number of times: every scan is then
      answered with exactly the rows whose own transactions had committed, and the boot script's. */
  lemma GuardedRunIsCrashSafe(steps: seq<Step>, sid: nat, reader: nat, demo: seq<DemoTable>, schema: Schema, order: HashOrder)
    requires GuardedRun(steps) && DemoOk(demo)
    ensures RestartAnswersOwed(Play(Fresh(), steps), sid, reader, demo, schema, order)
  {
    hide Play, Fresh, GuardedRun, SoundRun, RestartAnswersOwed, Faithful, DemoOk;
    GuardedRunIff(steps);
    LastSound(steps);
    RestartAnswersOwedIff(steps, sid, reader, demo, schema, order);
  }

  // Without reuse every run is guarded.

  /** A log in which no id was begun twice is faithful. */
  lemma BegunOnceIsFaithful(log: seq<RedoRecord>)
    requires TrailOk(log) && BegunOnce(log)
    ensures Faithful(log)
  {
    hide TrailOk, BegunOnce, GoesOnToCommit, LastIsCommit, CommitsIn, RollsBackIn;
    BegunOnceIsUnanimous(log);
    forall i | 0 <= i < |log| && log[i].RedoInsert?
      ensures GoesOnToCommit(log[i + 1..], log[i].txId) <==> ShownAfter(log, log[i].txId)
    {
      var id := log[i].txId;
      assert GoesOnToCommit(log[i + 1..], id) <==> Kept(log, RowOf(log[i]));
      if LastIsCommit(log, id) {
        LastCommitCommits(log, id);
      }
      if CommitsIn(log, id) {
        CommitIsLast(log, id);
      }
    }
  }

  lemma CommitIsLast(log: seq<RedoRecord>, id: nat)
    requires TrailOk(log) && BegunOnce(log) && CommitsIn(log, id)
    ensures LastIsCommit(log, id)
  {
    hide TrailOk, BegunOnce;
    var k :| 0 <= k < |log| && log[k].RedoCommit? && log[k].txId == id;
    forall j | k < j < |log| ensures log[j].txId != id {
      if log[j].txId == id {
        TerminalIsLast(log, k, j);
        assert false;
      }
    }
    CommitStaysLast(log, k, |log|, id);
    assert log[..|log|] == log;
  }

  lemma {:induction false} CommitStaysLast(log: seq<RedoRecord>, k: nat, n: nat, id: nat)
    requires k < n <= |log| && log[k].RedoCommit? && log[k].txId == id
    requires forall j | k < j < n :: log[j].txId != id
    ensures LastIsCommit(log[..n], id)
    decreases n
  {
    assert log[..n][..n - 1] == log[..n - 1];
    if n - 1 > k {
      CommitStaysLast(log, k, n - 1, id);
    }
  }

  /** In a first generation ids are issued once. */
  lemma {:induction false} FirstGenerationBegins(steps: seq<Step>)
    requires NoCrash(steps)
    ensures Generation(Play(Fresh(), steps), 0) && BegunOnce(Trail(Play(Fresh(), steps).db.tx))
    decreases |steps|
  {
    hide Execute, TrailOk, ScnsUpTo, OldBelow, SessionsOpen, Logs;
    if steps == [] {
      FreshGeneration();
    } else {
      var n := |steps| - 1;
      FirstGenerationBegins(steps[..n]);
      var w := Play(Fresh(), steps[..n]);
      StepKeepsGeneration(w, steps[n], 0);
      if steps[n].Run? {
        var session := w.SessionOf(steps[n].sid);
        StatementTrail(w.db, session, steps[n].stmt, steps[n].order);
        LogsBeginNew(w.db, session, steps[n].stmt, Trail(w.db.tx));
      }
    }
  }

  lemma LogsBeginNew(db: Db, session: Session, stmt: Statement, recs: seq<RedoRecord>)
    requires BegunOnce(recs) && forall i | 0 <= i < |recs| :: recs[i].txId < db.tx.nextTxId
    ensures BegunOnce(recs + Logs(db, session, stmt))
  {
    hide Lower, Accepted;
    var logs := Logs(db, session, stmt);
    if stmt.InsertInto? && logs != [] {
      var t := Lower(stmt.name);
      OnlyInserts(session.current.value, db.tx.scn, t, Accepted(stmt.rows, |db.catalog[t].columns|), |db.tables[t]|);
    }
    assert stmt != Begin ==> forall i | 0 <= i < |logs| :: !logs[i].RedoBegin?;
  }

  lemma {:induction false} OnlyInserts(tx: nat, scn: nat, table: string, values: seq<seq<Value>>, firstIdx: nat)
    ensures AllInserts(InsertRecords(tx, scn, table, values, firstIdx))
  {
    if values != [] {
      OnlyInserts(tx, scn, table, values[1..], firstIdx + 1);
    }
  }

  /** Every run without a crash is guarded. */
  lemma FirstGenerationIsGuarded(steps: seq<Step>)
    requires NoCrash(steps)
    ensures GuardedRun(steps)
  {
    hide Play, Fresh, GuardedRun, Faithful, TrailOk, BegunOnce;
    forall n: nat | n <= |steps| ensures SoundAt(steps, n) {
      FirstGenerationBegins(steps[..n]);
      var tx := Play(Fresh(), steps[..n]).db.tx;
      BegunOnceIsFaithful(Trail(tx));
      PrefixOk(Trail(tx), |tx.log|);
      assert Trail(tx)[..|tx.log|] == tx.log;
      BegunOncePrefix(Trail(tx), |tx.log|);
      BegunOnceIsFaithful(tx.log);
    }
    GuardedRunIff(steps);
  }

  lemma BegunOncePrefix(recs: seq<RedoRecord>, n: nat)
    requires BegunOnce(recs) && n <= |recs|
    ensures BegunOnce(recs[..n])
  {
  }

  // A BEGIN that hides rows.

  /** In every run a BEGIN changes what another session is sent for a table if and only if a row it was
      sent carries the id the BEGIN is given, which only a row recovered from an earlier generation can. */
  lemma BeginHidesIff(steps: seq<Step>, sid: nat, reader: nat, t: string, order: HashOrder, readOrder: HashOrder)
    requires sid != reader
    requires var w := Play(Fresh(), steps);
             w.SessionOf(sid).current == None && t in w.db.catalog && t in w.db.tables
    ensures var w := Play(Fresh(), steps);
            Scanned(Next(w, Run(sid, Begin, order)), reader, t, readOrder) != Scanned(w, reader, t, readOrder) <==>
            exists i :: 0 <= i < |w.db.tables[t]| && w.db.tables[t][i].txId == Some(w.db.tx.nextTxId)
                        && Reader(w.db, w.SessionOf(reader).current, readOrder).Sees(w.db.tables[t][i])
  {
    EveryRunIsInAGeneration(steps);
    hide Play, Fresh;
    var w := Play(Fresh(), steps);
    var g: nat :| Generation(w, g);
    ReaderIsOlder(w, reader, g);
    BeginHides(w, sid, reader, t, order, readOrder);
  }

  lemma ReaderIsOlder(w: World, reader: nat, g: nat)
    requires Generation(w, g)
    ensures w.SessionOf(reader).current != Some(w.db.tx.nextTxId)
  {
    hide TrailOk, ScnsUpTo, OldBelow, IssuedSince, OpenSince;
  }

  lemma BeginHides(w: World, sid: nat, reader: nat, t: string, order: HashOrder, readOrder: HashOrder)
    requires sid != reader && w.SessionOf(reader).current != Some(w.db.tx.nextTxId)
    requires w.SessionOf(sid).current == None && t in w.db.catalog && t in w.db.tables
    ensures Scanned(Next(w, Run(sid, Begin, order)), reader, t, readOrder) != Scanned(w, reader, t, readOrder) <==>
            exists i :: 0 <= i < |w.db.tables[t]| && w.db.tables[t][i].txId == Some(w.db.tx.nextTxId)
                        && Reader(w.db, w.SessionOf(reader).current, readOrder).Sees(w.db.tables[t][i])
  {
    hide Scanned, Select;
    var after, id, rows := Next(w, Run(sid, Begin, order)), w.db.tx.nextTxId, w.db.tables[t];
    var own := w.SessionOf(reader).current;
    assert after.SessionOf(reader) == w.SessionOf(reader) && after.db.tables == w.db.tables && after.db.catalog == w.db.catalog;
    ScanAnswersVisible(w, reader, t, readOrder);
    ScanAnswersVisible(after, reader, t, readOrder);
    var a, b := Reader(w.db, own, readOrder), Reader(after.db, own, readOrder);
    var sees := (row: Tuple) => a.Sees(row);
    var other := (row: Tuple) => row.txId != Some(id);
    var still := (row: Tuple) => b.Sees(row);
    assert forall i | 0 <= i < |rows| :: still(rows[i]) == (sees(rows[i]) && other(rows[i]));
    SelectTwice(rows, sees, other, still);
    var seen := Select(rows, sees);
    WithoutNone(seen, id);
    SelectedHas(rows, sees, id);
  }

  lemma WithoutNone(rows: seq<Tuple>, id: nat)
    ensures Select(rows, (row: Tuple) => row.txId != Some(id)) == rows <==> forall i | 0 <= i < |rows| :: rows[i].txId != Some(id)
  {
    if forall i | 0 <= i < |rows| :: rows[i].txId != Some(id) {
      SelectAll(rows, (row: Tuple) => row.txId != Some(id));
    }
    WithoutShrinks(rows, id);
    hide Select;
  }

  lemma SelectedHas(rows: seq<Tuple>, p: Tuple -> bool, id: nat)
    ensures (forall i | 0 <= i < |Select(rows, p)| :: Select(rows, p)[i].txId != Some(id)) <==>
            !(exists i :: 0 <= i < |rows| && rows[i].txId == Some(id) && p(rows[i]))
  {
    var seen := Select(rows, p);
    if i :| 0 <= i < |rows| && rows[i].txId == Some(id) && p(rows[i]) {
      SelectMember(rows, p, rows[i]);
    }
    forall i | 0 <= i < |seen| ensures seen[i] in rows && p(seen[i]) {
      SelectMember(rows, p, seen[i]);
    }
  }
}
