/** Transaction manager: logical clock, statuses, undo segments, redo buffer and log (src/tx.rs).
    Each method of the class is tied to a function on the values of its fields. */
module Transactions {
  import opened Wrappers
  import opened Storage

  datatype TxStatus = Active | Committed | RolledBack

  datatype UndoRecord = UndoInsert(table: string, rowIdx: nat)

  datatype RedoRecord =
    | RedoBegin(txId: nat, scn: nat)
    | RedoInsert(txId: nat, scn: nat, table: string, values: seq<Value>, rowIdx: nat)
    | RedoCommit(txId: nat, scn: nat)
    | RedoRollback(txId: nat, scn: nat)

  const U64_MAX: nat := 0xFFFF_FFFF_FFFF_FFFF

  /** What a reader needs to know about other transactions. */
  datatype Visibility = Visibility(statuses: map<nat, TxStatus>, commitScns: map<nat, nat>)

  /** Read Committed: system rows, own rows, and rows committed at or before the reader's SCN. */
  predicate IsVisible(vis: Visibility, rowTx: Option<nat>, sessionTx: Option<nat>, crScn: nat) {
    match rowTx
    case None => true
    case Some(tx) =>
      if sessionTx == Some(tx) then true
      else if tx in vis.statuses && vis.statuses[tx] == Committed then
        (if tx in vis.commitScns then vis.commitScns[tx] else U64_MAX) <= crScn
      else false
  }

  datatype TxState = TxState(
    scn: nat,
    vis: Visibility,
    undo: map<nat, seq<UndoRecord>>,
    buffer: seq<RedoRecord>,
    nextTxId: nat,
    log: seq<RedoRecord>)
  {
    function Begun(): TxState {
      this.(
      vis := vis.(statuses := vis.statuses[nextTxId := Active]),
      undo := undo[nextTxId := []],
      buffer := buffer + [RedoBegin(nextTxId, scn)],
      nextTxId := nextTxId + 1)
    }

    function UndoOf(tx: nat): seq<UndoRecord> {
      if tx in undo then undo[tx] else []
    }

    function InsertRecorded(tx: nat, table: string, values: seq<Value>, rowIdx: nat): TxState {
      this.(
      undo := undo[tx := UndoOf(tx) + [UndoInsert(table, rowIdx)]],
      buffer := buffer + [RedoInsert(tx, scn, table, values, rowIdx)])
    }

    function CommitDone(tx: nat): TxState {
      this.(
      scn := scn + 1,
      vis := Visibility(vis.statuses[tx := Committed], vis.commitScns[tx := scn + 1]),
      buffer := buffer + [RedoCommit(tx, scn + 1)]).Flushed()
    }

    /** The status change of a rollback; the undo segment has been taken out before. */
    function RollbackDone(tx: nat): TxState {
      this.(
      vis := vis.(statuses := vis.statuses[tx := RolledBack]),
      buffer := buffer + [RedoRollback(tx, scn)]).Flushed()
    }

    function Flushed(): TxState {
      this.(log := log + buffer, buffer := [])
    }

    function UndoTaken(tx: nat): TxState {
      this.(undo := undo - {tx})
    }
  }

  /** A manager just opened on an existing log. */
  function Opened(log: seq<RedoRecord>): TxState {
    TxState(0, Visibility(map[], map[]), map[], [], 1, log)
  }

  class TransactionManager {
    var scn: nat
    var statuses: map<nat, TxStatus>
    var commitScns: map<nat, nat>
    var undoSegments: map<nat, seq<UndoRecord>>
    var redoBuffer: seq<RedoRecord>
    var nextTxId: nat
    var redoFile: seq<RedoRecord>

    ghost function View(): TxState
      reads this
    {
      TxState(scn, Visibility(statuses, commitScns), undoSegments, redoBuffer, nextTxId, redoFile)
    }

    constructor (log: seq<RedoRecord>)
      ensures View() == Opened(log)
    {
      scn, nextTxId := 0, 1;
      statuses, commitScns, undoSegments := map[], map[], map[];
      redoBuffer, redoFile := [], log;
    }

    method Begin() returns (tx: nat)
      modifies this
      ensures tx == old(nextTxId)
      ensures View() == old(View()).Begun()
    {
      tx := nextTxId;
      nextTxId := nextTxId + 1;
      statuses := statuses[tx := Active];
      undoSegments := undoSegments[tx := []];
      redoBuffer := redoBuffer + [RedoBegin(tx, scn)];
    }

    method RecordInsert(tx: nat, table: string, values: seq<Value>, rowIdx: nat)
      modifies this
      ensures View() == old(View()).InsertRecorded(tx, table, values, rowIdx)
    {
      var segment := if tx in undoSegments then undoSegments[tx] else [];
      undoSegments := undoSegments[tx := segment + [UndoInsert(table, rowIdx)]];
      redoBuffer := redoBuffer + [RedoInsert(tx, scn, table, values, rowIdx)];
    }

    method Commit(tx: nat)
      modifies this
      ensures View() == old(View()).CommitDone(tx)
    {
      scn := scn + 1;
      statuses := statuses[tx := Committed];
      commitScns := commitScns[tx := scn];
      redoBuffer := redoBuffer + [RedoCommit(tx, scn)];
      LgwrFlush();
    }

    method Rollback(tx: nat)
      modifies this
      ensures View() == old(View()).RollbackDone(tx)
    {
      statuses := statuses[tx := RolledBack];
      redoBuffer := redoBuffer + [RedoRollback(tx, scn)];
      LgwrFlush();
    }

    /** Appends the buffered records to the log, one by one, and empties the buffer. */
    method LgwrFlush()
      modifies this
      ensures View() == old(View()).Flushed()
    {
      if redoBuffer == [] {
        assert redoFile + redoBuffer == redoFile;
        return;
      }
      for i := 0 to |redoBuffer|
        invariant redoBuffer == old(redoBuffer)
        invariant redoFile == old(redoFile) + redoBuffer[..i]
        invariant View() == old(View()).(log := redoFile)
      {
        redoFile := redoFile + [redoBuffer[i]];
      }
      assert redoBuffer[..|redoBuffer|] == redoBuffer;
      redoBuffer := [];
    }
  }
}
