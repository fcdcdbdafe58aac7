/** Undo by position: when ROLLBACK removes exactly the rows of its transaction, and that the discipline
    which makes it so is exactly what is needed. */
module RollbackDiscipline {
  import opened Wrappers
  import opened Storage
  import opened Planner
  import opened Transactions
  import opened Sequences
  import opened Meaning
  import opened Handler
  import opened Recovery
  import opened Server
  import opened Lifecycle

  /** The positions of a transaction's rows in a table, in increasing order. */
  function OwnPositions(rows: seq<Tuple>, id: nat): seq<nat> {
    if rows == [] then []
    else
      OwnPositions(rows[..|rows| - 1], id) +
      if rows[|rows| - 1].txId == Some(id) then [|rows| - 1] else []
  }

  /** The positions an undo segment names in one table, in order. */
  function Segment(recs: seq<UndoRecord>, t: string): seq<nat> {
    if recs == [] then []
    else
      Segment(recs[..|recs| - 1], t) +
      if recs[|recs| - 1].table == t then [recs[|recs| - 1].rowIdx] else []
  }

  function Without(rows: seq<Tuple>, id: nat): seq<Tuple> {
    Select(rows, (row: Tuple) => row.txId != Some(id))
  }

  ghost predicate SegmentExact(db: Db, id: nat) {
    forall t :: Segment(db.tx.UndoOf(id), t) == OwnPositions(RowsIn(db.tables, t), id)
  }

  /** The undo list of each active transaction is, per table, the increasing list of its own positions. */
  ghost predicate UndoExact(db: Db) {
    forall id: nat | IsActive(db.tx, id) :: SegmentExact(db, id)
  }

  // Reverse removal of increasing positions.

  function RemoveAll(rows: seq<Tuple>, positions: seq<nat>): seq<Tuple> {
    if positions == [] then rows
    else
      var p := positions[|positions| - 1];
      RemoveAll(if p < |rows| then RemoveAt(rows, p) else rows, positions[..|positions| - 1])
  }

  predicate IncreasingBelow(positions: seq<nat>, bound: nat) {
    && (forall i, j | 0 <= i < j < |positions| :: positions[i] < positions[j])
    && (forall i | 0 <= i < |positions| :: positions[i] < bound)
  }

  lemma {:induction false} UndoAllPerTable(tables: Tables, recs: seq<UndoRecord>, t: string)
    ensures UndoAll(tables, recs).Keys == tables.Keys
    ensures RowsIn(UndoAll(tables, recs), t) == RemoveAll(RowsIn(tables, t), Segment(recs, t))
    decreases |recs|
  {
    if recs != [] {
      var n := |recs| - 1;
      var mid := UndoOne(tables, recs[n]);
      UndoAllPerTable(mid, recs[..n], t);
      assert Segment(recs, t) == Segment(recs[..n], t) + if recs[n].table == t then [recs[n].rowIdx] else [];
      if recs[n].table == t {
        assert Segment(recs, t)[..|Segment(recs, t)| - 1] == Segment(recs[..n], t);
      } else {
        assert Segment(recs, t) == Segment(recs[..n], t);
      }
    }
  }

  lemma {:induction false} RemoveBelow(rows: seq<Tuple>, x: Tuple, positions: seq<nat>)
    requires IncreasingBelow(positions, |rows|)
    ensures RemoveAll(rows + [x], positions) == RemoveAll(rows, positions) + [x]
    decreases |positions|
  {
    if positions != [] {
      var n := |positions| - 1;
      var p := positions[n];
      assert RemoveAt(rows + [x], p) == RemoveAt(rows, p) + [x];
      RemoveBelow(RemoveAt(rows, p), x, positions[..n]);
    }
  }

  lemma {:induction false} OwnIncrease(rows: seq<Tuple>, id: nat)
    ensures IncreasingBelow(OwnPositions(rows, id), |rows|)
  {
    if rows != [] {
      OwnIncrease(rows[..|rows| - 1], id);
    }
  }

  lemma OwnAppend(front: seq<Tuple>, last: Tuple, id: nat)
    ensures OwnPositions(front + [last], id) ==
            if last.txId == Some(id) then OwnPositions(front, id) + [|front|] else OwnPositions(front, id)
  {
    assert (front + [last])[..|front|] == front;
  }

  lemma WithoutAppend(front: seq<Tuple>, last: Tuple, id: nat)
    ensures Without(front + [last], id) == if last.txId == Some(id) then Without(front, id) else Without(front, id) + [last]
  {
    SelectAppend(front, last, (row: Tuple) => row.txId != Some(id));
  }

  lemma RemoveLast(rows: seq<Tuple>, positions: seq<nat>)
    requires rows != []
    ensures RemoveAll(rows, positions + [|rows| - 1]) == RemoveAll(rows[..|rows| - 1], positions)
  {
    assert (positions + [|rows| - 1])[..|positions|] == positions;
    assert RemoveAt(rows, |rows| - 1) == rows[..|rows| - 1];
  }

  lemma RemoveOwnStep(front: seq<Tuple>, last: Tuple, id: nat)
    requires RemoveAll(front, OwnPositions(front, id)) == Without(front, id)
    ensures RemoveAll(front + [last], OwnPositions(front + [last], id)) == Without(front + [last], id)
  {
    hide OwnPositions, Without, RemoveAll;
    OwnAppend(front, last, id);
    WithoutAppend(front, last, id);
    OwnIncrease(front, id);
    if last.txId == Some(id) {
      RemoveLast(front + [last], OwnPositions(front, id));
      assert (front + [last])[..|front|] == front;
    } else {
      RemoveBelow(front, last, OwnPositions(front, id));
    }
  }

  lemma RemoveNothing(id: nat)
    ensures RemoveAll([], OwnPositions([], id)) == Without([], id)
  {
  }

  lemma {:induction false} RemoveOwn(rows: seq<Tuple>, id: nat)
    ensures RemoveAll(rows, OwnPositions(rows, id)) == Without(rows, id)
  {
    hide OwnPositions, Without, RemoveAll;
    if rows == [] {
      RemoveNothing(id);
    } else {
      var n := |rows| - 1;
      RemoveOwn(rows[..n], id);
      RemoveOwnStep(rows[..n], rows[n], id);
      assert rows == rows[..n] + [rows[n]];
    }
  }

  /** ROLLBACK is exact: when the undo segment of the transaction is, per table, the list of its own
      positions, the reverse removals delete exactly its rows and keep all others in order. */
  lemma RollbackIsExact(db: Db, id: nat, t: string)
    requires SegmentExact(db, id)
    ensures RowsIn(RolledBackDb(db, id).tables, t) == Without(RowsIn(db.tables, t), id)
  {
    UndoAllPerTable(db.tables, db.tx.UndoOf(id), t);
    RemoveOwn(RowsIn(db.tables, t), id);
  }

  // The discipline.

  /** No row of `other` stands behind a row of `id`. */
  predicate NoneBehind(rows: seq<Tuple>, id: nat, other: nat) {
    forall i, j | 0 <= i < j < |rows| :: !(rows[i].txId == Some(id) && rows[j].txId == Some(other))
  }

  /** A transaction may roll back while no other active transaction has a row behind one of its rows. */
  ghost predicate Disciplined(db: Db, id: nat) {
    forall t, other: nat | t in db.tables && other != id && IsActive(db.tx, other) ::
      NoneBehind(db.tables[t], id, other)
  }

  lemma {:induction false} WithoutShrinks(rows: seq<Tuple>, id: nat)
    ensures |Without(rows, id)| == |rows| <==> forall i | 0 <= i < |rows| :: rows[i].txId != Some(id)
  {
    if rows != [] {
      WithoutShrinks(rows[1..], id);
      assert forall i | 0 < i < |rows| :: rows[i] == rows[1..][i - 1];
    }
  }

  lemma NoneBehindAppend(front: seq<Tuple>, last: Tuple, id: nat, other: nat)
    ensures NoneBehind(front + [last], id, other) <==>
            NoneBehind(front, id, other) &&
            (last.txId == Some(other) ==> forall i | 0 <= i < |front| :: front[i].txId != Some(id))
  {
    var rows := front + [last];
    if NoneBehind(rows, id, other) {
      forall i, j | 0 <= i < j < |front| ensures !(front[i].txId == Some(id) && front[j].txId == Some(other)) {
        assert rows[i] == front[i] && rows[j] == front[j];
      }
      if last.txId == Some(other) {
        forall i | 0 <= i < |front| ensures front[i].txId != Some(id) {
          assert rows[i] == front[i] && rows[|front|] == last;
        }
      }
    }
  }

  /** Removing the rows of `id` leaves the positions of `other` alone exactly when none of its rows
      stands behind a removed one. */
  lemma {:induction false} PositionsKept(rows: seq<Tuple>, id: nat, other: nat)
    requires id != other
    ensures OwnPositions(Without(rows, id), other) == OwnPositions(rows, other) <==> NoneBehind(rows, id, other)
  {
    hide NoneBehind, OwnPositions, Without;
    if rows == [] {
      PositionsOfNothing(id, other);
    } else {
      var n := |rows| - 1;
      var front, last := rows[..n], rows[n];
      PositionsKept(front, id, other);
      assert rows == front + [last];
      WithoutAppend(front, last, id);
      OwnAppend(front, last, other);
      OwnAppend(Without(front, id), last, other);
      NoneBehindAppend(front, last, id, other);
      WithoutShrinks(front, id);
      if last.txId == Some(other) {
        SameAppend(OwnPositions(Without(front, id), other), |Without(front, id)|, OwnPositions(front, other), n);
      }
    }
  }

  lemma PositionsOfNothing(id: nat, other: nat)
    ensures OwnPositions(Without([], id), other) == OwnPositions([], other) && NoneBehind([], id, other)
  {
  }

  lemma SameAppend(a: seq<nat>, x: nat, b: seq<nat>, y: nat)
    ensures a + [x] == b + [y] <==> a == b && x == y
  {
    if a + [x] == b + [y] {
      assert (a + [x])[..|a|] == a && (b + [y])[..|b|] == b;
      assert (a + [x])[|a|] == x && (b + [y])[|b|] == y;
    }
  }

  lemma OthersSegmentAfter(db: Db, id: nat, other: nat)
    requires UndoExact(db) && IsActive(db.tx, id) && IsActive(db.tx, other) && other != id
    ensures SegmentExact(RolledBackDb(db, id), other) <==>
            forall t | t in db.tables :: NoneBehind(db.tables[t], id, other)
  {
    hide OwnPositions, Segment, Without, NoneBehind, UndoAll;
    var after := RolledBackDb(db, id);
    assert SegmentExact(db, id) && SegmentExact(db, other);
    assert after.tx.UndoOf(other) == db.tx.UndoOf(other);
    forall t
      ensures Segment(after.tx.UndoOf(other), t) == OwnPositions(RowsIn(after.tables, t), other) <==>
              NoneBehind(RowsIn(db.tables, t), id, other)
    {
      RollbackIsExact(db, id, t);
      PositionsKept(RowsIn(db.tables, t), id, other);
    }
    assert NoneBehind([], id, other) by {
      NothingBehind(id, other);
    }
    if forall t | t in db.tables :: NoneBehind(db.tables[t], id, other) {
      forall t ensures Segment(after.tx.UndoOf(other), t) == OwnPositions(RowsIn(after.tables, t), other) {
        assert NoneBehind(RowsIn(db.tables, t), id, other);
      }
    }
    if SegmentExact(after, other) {
      forall t | t in db.tables ensures NoneBehind(db.tables[t], id, other) {
        assert Segment(after.tx.UndoOf(other), t) == OwnPositions(RowsIn(after.tables, t), other);
      }
    }
  }

  lemma NothingBehind(id: nat, other: nat)
    ensures NoneBehind([], id, other)
  {
  }

  /** The discipline is exactly what is needed: a rollback leaves the undo lists of all other active
      transactions exact if and only if none of them has a row behind one of the rows removed. */
  lemma RollbackKeepsOthersExactIff(db: Db, id: nat)
    requires UndoExact(db) && IsActive(db.tx, id)
    ensures UndoExact(RolledBackDb(db, id)) <==> Disciplined(db, id)
  {
    hide SegmentExact, NoneBehind;
    var after := RolledBackDb(db, id);
    assert forall other: nat :: IsActive(after.tx, other) <==> IsActive(db.tx, other) && other != id;
    forall other: nat | IsActive(db.tx, other) && other != id
      ensures SegmentExact(after, other) <==> forall t | t in db.tables :: NoneBehind(db.tables[t], id, other)
    {
      OthersSegmentAfter(db, id, other);
    }
  }
}
