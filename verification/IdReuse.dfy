/** Recovery restores the clock but not the counter of transaction ids. What that costs, and exactly
    when recovery still rebuilds what had committed. */
module IdReuse {
  import opened Wrappers
  import opened Storage
  import opened Transactions
  import opened Sequences
  import opened Meaning
  import opened Handler
  import opened Recovery
  import opened Server
  import opened Lifecycle
  import opened WriteAhead
  import opened Durability
  import opened Generations

  // Ids start over.

  lemma LogIsOk(steps: seq<Step>)
    ensures TrailOk(Play(Fresh(), steps).db.tx.log) && EndsTerminal(Play(Fresh(), steps).db.tx.log)
  {
    hide Play, Fresh, TrailOk;
    EveryRunIsInAGeneration(steps);
    var w := Play(Fresh(), steps);
    var g: nat :| Generation(w, g);
    assert Trail(w.db.tx)[..|w.db.tx.log|] == w.db.tx.log;
    PrefixOk(Trail(w.db.tx), |w.db.tx.log|);
  }

  lemma {:induction false} ReplayedIds(recs: seq<RedoRecord>, i: nat)
    requires i < |recs| && !recs[i].RedoInsert?
    ensures recs[i].txId in ReplayAll(EmptyReplay(), recs).vis.statuses
    decreases |recs|
  {
    if i < |recs| - 1 {
      ReplayedIds(recs[..|recs| - 1], i);
    }
  }

  /** A crash leaves fresh ids exactly when nothing had been written to the log. */
  lemma IdsAreFreshAfterCrashIff(steps: seq<Step>)
    ensures Inv(Next(Play(Fresh(), steps), Crash)) <==> Play(Fresh(), steps).db.tx.log == []
  {
    var log := Play(Fresh(), steps).db.tx.log;
    LogIsOk(steps);
    hide Play, Fresh, ReplayAll;
    if log != [] {
      ReplayedIds(log, |log| - 1);
    }
  }

  /** After any crash with a non-empty log, the first BEGIN issues id 1 again, the id the log begins with. */
  lemma FirstIdIsReissued(steps: seq<Step>, sid: nat, order: HashOrder)
    requires Play(Fresh(), steps).db.tx.log != []
    ensures Play(Fresh(), steps).db.tx.log[0].txId == 1
    ensures ResponseTo(Next(Play(Fresh(), steps), Crash), Run(sid, Begin, order)) == Ok(Began(1))
  {
    LogIsOk(steps);
    hide Play, Fresh, ReplayAll;
  }

  /** Rolling that transaction back erases, at the next recovery, every row of the old transaction 1,
      committed or not. */
  lemma ReissuedRollbackErases(steps: seq<Step>, sid: nat, order: HashOrder, t: string, row: Tuple)
    requires var again := [Crash, Run(sid, Begin, order), Run(sid, Rollback, order), Crash];
             row in RowsIn(Play(Play(Fresh(), steps), again).db.tables, t)
    ensures row.txId != Some(1)
  {
    hide Fresh, ReplayAll, LoggedRows, UndoAll;
    var w := Play(Fresh(), steps);
    var c1 := Next(w, Crash);
    var c2 := Next(c1, Run(sid, Begin, order));
    var c3 := Next(c2, Run(sid, Rollback, order));
    PlayFour(w, Crash, Run(sid, Begin, order), Run(sid, Rollback, order), Crash);
    var log := c3.db.tx.log;
    assert c1.db.tx.nextTxId == 1 && c2.SessionOf(sid).current == Some(1);
    assert log[|log| - 1].RedoRollback? && log[|log| - 1].txId == 1;
    BootedRows(log, t);
    SelectMember(LoggedRows(log, t), (r: Tuple) => Kept(log, r), row);
  }

  lemma PlayFour(w: World, a: Step, b: Step, c: Step, d: Step)
    ensures Play(w, [a, b, c, d]) == Next(Next(Next(Next(w, a), b), c), d)
  {
    hide Next;
    assert [a, b, c, d][..3] == [a, b, c] && [a, b, c][..2] == [a, b] && [a, b][..1] == [a] && [a][..0] == [];
    assert Play(w, [a]) == Next(Play(w, []), a);
    assert Play(w, [a, b]) == Next(Play(w, [a]), b);
    assert Play(w, [a, b, c]) == Next(Play(w, [a, b]), c);
  }

  // Exactly when recovery is right.

  predicate EndsOrBegins(rec: RedoRecord, id: nat) {
    rec.txId == id && !rec.RedoInsert?
  }

  /** Whether the transaction `id` that is running before `rest` commits there: what comes first for
      the id is a Commit, not a Rollback, a new Begin or the end of the log. */
  predicate GoesOnToCommit(rest: seq<RedoRecord>, id: nat) {
    if rest == [] then false
    else if EndsOrBegins(rest[0], id) then rest[0].RedoCommit?
    else GoesOnToCommit(rest[1..], id)
  }

  function RowOf(rec: RedoRecord): Tuple
    requires rec.RedoInsert?
  {
    Tuple(rec.values, Some(rec.txId), rec.scn)
  }

  /** The rows that their own transactions went on to commit, whatever id those transactions had. */
  function OwedRows(log: seq<RedoRecord>, t: string): seq<Tuple> {
    if log == [] then []
    else
      (if log[0].RedoInsert? && log[0].table == t && GoesOnToCommit(log[1..], log[0].txId) then [RowOf(log[0])] else []) +
      OwedRows(log[1..], t)
  }

  /** For every inserted row: its own transaction committed if and only if some transaction of that id
      committed and none rolled back. */
  predicate Unanimous(log: seq<RedoRecord>) {
    forall i | 0 <= i < |log| && log[i].RedoInsert? ::
      GoesOnToCommit(log[i + 1..], log[i].txId) <==> Kept(log, RowOf(log[i]))
  }

  /** The rows inserted by the part of a log from position i on that satisfy a predicate. */
  lemma {:induction false} RowsFromFront(log: seq<RedoRecord>, i: nat, t: string)
    requires i < |log|
    ensures LoggedRows(log[i..], t) ==
            (if log[i].RedoInsert? && log[i].table == t then [RowOf(log[i])] else []) + LoggedRows(log[i + 1..], t)
  {
    assert log[i..] == [log[i]] + log[i + 1..];
    LoggedRowsConcat([log[i]], log[i + 1..], t);
    assert [log[i]][..0] == [];
    NothingLogged(t);
  }

  /** For every inserted row: its own transaction committed if and only if the row passes a test. */
  ghost predicate Agrees(log: seq<RedoRecord>, test: Tuple -> bool) {
    forall i | 0 <= i < |log| && log[i].RedoInsert? ::
      GoesOnToCommit(log[i + 1..], log[i].txId) <==> test(RowOf(log[i]))
  }

  lemma {:induction false} AgreeingIsExact(log: seq<RedoRecord>, i: nat, t: string, test: Tuple -> bool)
    requires i <= |log| && Agrees(log, test)
    ensures OwedRows(log[i..], t) == Select(LoggedRows(log[i..], t), test)
    decreases |log| - i
  {
    hide LoggedRows, GoesOnToCommit;
    if i == |log| {
      NothingLogged(t);
    } else {
      AgreeingIsExact(log, i + 1, t, test);
      RowsFromFront(log, i, t);
      assert log[i..][1..] == log[i + 1..] && log[i..][0] == log[i];
      var rest := LoggedRows(log[i + 1..], t);
      if log[i].RedoInsert? && log[i].table == t {
        SelectConcat([RowOf(log[i])], rest, test);
        SelectOne(RowOf(log[i]), test);
        assert GoesOnToCommit(log[i + 1..], log[i].txId) <==> test(RowOf(log[i]));
      } else {
        assert [] + rest == rest && [] + OwedRows(log[i + 1..], t) == OwedRows(log[i + 1..], t);
      }
    }
  }

  lemma {:induction false} SkipsToSameFate(log: seq<RedoRecord>, i: nat, j: nat, id: nat)
    requires i <= j <= |log|
    requires forall k | i <= k < j :: !EndsOrBegins(log[k], id)
    ensures GoesOnToCommit(log[i..], id) == GoesOnToCommit(log[j..], id)
    decreases j - i
  {
    if i < j {
      assert log[i..][1..] == log[i + 1..];
      SkipsToSameFate(log, i + 1, j, id);
    }
  }

  /** Equal rows were inserted by one transaction, so they share its fate. */
  lemma EqualRowsShareFate(log: seq<RedoRecord>, i: nat, j: nat)
    requires TrailOk(log) && i < j < |log|
    requires log[i].RedoInsert? && log[j].RedoInsert? && RowOf(log[i]) == RowOf(log[j])
    ensures GoesOnToCommit(log[i + 1..], log[i].txId) == GoesOnToCommit(log[j + 1..], log[j].txId)
  {
    var id := log[i].txId;
    forall k | i + 1 <= k < j + 1 ensures !EndsOrBegins(log[k], id) {
      if i < k < j {
        NothingEndsBetween(log, i, k, j);
      }
    }
    SkipsToSameFate(log, i + 1, j + 1, id);
  }

  /** Between two inserts of one id at one SCN that id neither ends nor begins. */
  lemma NothingEndsBetween(log: seq<RedoRecord>, i: nat, k: nat, j: nat)
    requires TrailOk(log) && i < k < j < |log|
    requires log[i].RedoInsert? && log[j].RedoInsert?
    requires log[i].txId == log[j].txId && log[i].scn == log[j].scn
    ensures !EndsOrBegins(log[k], log[i].txId)
  {
    assert log[i].scn <= log[k].scn <= log[j].scn;
    if log[k].RedoRollback? && log[k].txId == log[i].txId {
      var b: nat :| OpenBefore(log, b, j, log[j].txId);
      assert log[b].scn <= log[j].scn;
    }
  }

  lemma {:induction false} OwedRowIsFrom(log: seq<RedoRecord>, t: string, row: Tuple)
    ensures row in OwedRows(log, t) <==>
            exists i :: 0 <= i < |log| && log[i].RedoInsert? && log[i].table == t && RowOf(log[i]) == row
                        && GoesOnToCommit(log[i + 1..], log[i].txId)
  {
    hide GoesOnToCommit;
    if log != [] {
      OwedRowIsFrom(log[1..], t, row);
      forall i | 0 <= i < |log| - 1 ensures log[1..][i] == log[i + 1] && log[1..][i + 1..] == log[i + 2..] {
      }
      if i :| 0 <= i < |log| - 1 && log[1..][i].RedoInsert? && log[1..][i].table == t && RowOf(log[1..][i]) == row
              && GoesOnToCommit(log[1..][i + 1..], log[1..][i].txId) {
        assert log[i + 1].RedoInsert? && GoesOnToCommit(log[i + 2..], log[i + 1].txId);
      }
      if i :| 0 <= i < |log| && log[i].RedoInsert? && log[i].table == t && RowOf(log[i]) == row
              && GoesOnToCommit(log[i + 1..], log[i].txId) && i > 0 {
        assert log[1..][i - 1] == log[i] && log[1..][i..] == log[i + 1..];
      }
    }
  }

  lemma {:induction false} LoggedRowIsFrom(log: seq<RedoRecord>, i: nat)
    requires i < |log| && log[i].RedoInsert?
    ensures RowOf(log[i]) in LoggedRows(log, log[i].table)
    decreases |log|
  {
    if i < |log| - 1 {
      LoggedRowIsFrom(log[..|log| - 1], i);
    }
  }

  /** Recovery puts exactly the rows whose own transactions committed into the tables, if and only if
      the log is unanimous. For the log of any run, however many crashes it has seen. */
  lemma RecoveryIsExactIff(steps: seq<Step>)
    ensures var log := Play(Fresh(), steps).db.tx.log;
            (forall t :: RowsIn(Next(Play(Fresh(), steps), Crash).db.tables, t) == OwedRows(log, t)) <==> Unanimous(log)
  {
    LogIsOk(steps);
    hide Play, Fresh;
    RecoveryOfLogIsExactIff(Play(Fresh(), steps).db.tx.log);
  }

  /** A test that selects exactly the owed rows agrees with every single insert. */
  lemma ExactAgrees(log: seq<RedoRecord>, test: Tuple -> bool)
    requires TrailOk(log)
    requires forall i | 0 <= i < |log| && log[i].RedoInsert? ::
               Select(LoggedRows(log, log[i].table), test) == OwedRows(log, log[i].table)
    ensures Agrees(log, test)
  {
    hide LoggedRows, GoesOnToCommit, TrailOk, OwedRows;
    forall i | 0 <= i < |log| && log[i].RedoInsert?
      ensures GoesOnToCommit(log[i + 1..], log[i].txId) <==> test(RowOf(log[i]))
    {
      var t, row := log[i].table, RowOf(log[i]);
      LoggedRowIsFrom(log, i);
      SelectMember(LoggedRows(log, t), test, row);
      OwedRowIsFrom(log, t, row);
      if test(row) {
        var j :| 0 <= j < |log| && log[j].RedoInsert? && log[j].table == t && RowOf(log[j]) == row
                 && GoesOnToCommit(log[j + 1..], log[j].txId);
        if i < j {
          EqualRowsShareFate(log, i, j);
        } else if j < i {
          EqualRowsShareFate(log, j, i);
        }
      }
    }
  }

  lemma RecoveryOfLogIsExactIff(log: seq<RedoRecord>)
    requires TrailOk(log)
    ensures (forall t :: RowsIn(Booted(log).tables, t) == OwedRows(log, t)) <==> Unanimous(log)
  {
    hide Kept, Booted, LoggedRows, GoesOnToCommit, TrailOk, OwedRows;
    var test := (row: Tuple) => Kept(log, row);
    if Unanimous(log) {
      forall t ensures RowsIn(Booted(log).tables, t) == OwedRows(log, t) {
        BootedRows(log, t);
        AgreeingIsExact(log, 0, t, test);
        assert log[0..] == log;
      }
    }
    if forall t :: RowsIn(Booted(log).tables, t) == OwedRows(log, t) {
      forall i | 0 <= i < |log| && log[i].RedoInsert?
        ensures Select(LoggedRows(log, log[i].table), test) == OwedRows(log, log[i].table)
      {
        BootedRows(log, log[i].table);
      }
      ExactAgrees(log, test);
    }
  }

  // Without reuse the log is unanimous.

  ghost predicate BegunOnce(log: seq<RedoRecord>) {
    forall i, j | 0 <= i < j < |log| && log[i].RedoBegin? && log[j].RedoBegin? :: log[i].txId != log[j].txId
  }

  /** When no id was begun twice, a terminal record is the last record of its id. */
  lemma TerminalIsLast(log: seq<RedoRecord>, k: nat, j: nat)
    requires TrailOk(log) && BegunOnce(log)
    requires k < |log| && j < |log| && Terminal(log[k]) && log[j].txId == log[k].txId && j != k
    ensures j < k && !Terminal(log[j])
  {
    var id := log[k].txId;
    var b: nat :| OpenBefore(log, b, k, id);
    if log[j].RedoBegin? {
      assert j == b;
    } else {
      var c: nat :| OpenBefore(log, c, j, id);
      assert c == b;
    }
  }

  lemma {:induction false} FateAt(log: seq<RedoRecord>, i: nat, k: nat, id: nat)
    requires i <= k < |log| && EndsOrBegins(log[k], id)
    requires forall m | i <= m < k :: !EndsOrBegins(log[m], id)
    ensures GoesOnToCommit(log[i..], id) == log[k].RedoCommit?
  {
    SkipsToSameFate(log, i, k, id);
  }

  lemma {:induction false} CommitIsThere(log: seq<RedoRecord>, i: nat, id: nat)
    requires i <= |log| && GoesOnToCommit(log[i..], id)
    ensures CommitsIn(log, id)
    decreases |log| - i
  {
    if i < |log| {
      assert log[i..][1..] == log[i + 1..];
      if !EndsOrBegins(log[i], id) {
        CommitIsThere(log, i + 1, id);
      }
    }
  }

  /** Recovery is exact for every log in which no transaction id was issued twice. */
  lemma BegunOnceIsUnanimous(log: seq<RedoRecord>)
    requires TrailOk(log) && BegunOnce(log)
    ensures Unanimous(log)
  {
    hide TrailOk, BegunOnce, GoesOnToCommit;
    forall i | 0 <= i < |log| && log[i].RedoInsert?
      ensures GoesOnToCommit(log[i + 1..], log[i].txId) <==> Kept(log, RowOf(log[i]))
    {
      var id := log[i].txId;
      if GoesOnToCommit(log[i + 1..], id) {
        CommitIsThere(log, i + 1, id);
      }
      if CommitsIn(log, id) {
        var k :| 0 <= k < |log| && log[k].RedoCommit? && log[k].txId == id;
        TerminalIsLast(log, k, i);
        forall m | i + 1 <= m < k ensures !EndsOrBegins(log[m], id) {
          if log[m].txId == id {
            NoBeginBetween(log, i, m);
            TerminalIsLast(log, k, m);
          }
        }
        FateAt(log, i + 1, k, id);
        if RollsBackIn(log, id) {
          var m :| 0 <= m < |log| && log[m].RedoRollback? && log[m].txId == id;
          TerminalIsLast(log, k, m);
        }
      }
    }
  }

  lemma NoBeginBetween(log: seq<RedoRecord>, i: nat, m: nat)
    requires TrailOk(log) && BegunOnce(log)
    requires i < m < |log| && log[i].RedoInsert? && log[m].txId == log[i].txId
    ensures !log[m].RedoBegin?
  {
    var b: nat :| OpenBefore(log, b, i, log[i].txId);
  }
}
