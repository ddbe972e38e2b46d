/** The sticky-error transaction wrapper of tx.go. The database/sql
    transaction and its result sets are stubs that count how often they are
    used; what each driver call answers is passed in as an `Outcome`. */
module TxHandle {
  import opened Common

  /** The driver transaction (`*sql.Tx`): counts the statements sent to it
      and the rollbacks asked of it. */
  class StubTx {
    var calls: nat
    var rollbacks: nat

    constructor ()
      ensures calls == 0 && rollbacks == 0
    {
      calls, rollbacks := 0, 0;
    }

    /** ExecContext, QueryContext or QueryRowContext on the transaction. */
    method Call(answer: Outcome) returns (r: Outcome)
      modifies this
      ensures r == answer
      ensures calls == old(calls) + 1 && rollbacks == old(rollbacks)
    {
      calls := calls + 1;
      r := answer;
    }

    method Rollback()
      modifies this
      ensures rollbacks == old(rollbacks) + 1 && calls == old(calls)
    {
      rollbacks := rollbacks + 1;
    }
  }

  /** A driver result set (`*sql.Rows` or `*sql.Row`): counts how often it
      is used. */
  class StubCursor {
    var touches: nat

    constructor ()
      ensures touches == 0
    {
      touches := 0;
    }

    /** Scan, Next, Close or Err on the driver cursor. */
    method Use<T>(answer: T) returns (r: T)
      modifies this
      ensures r == answer && touches == old(touches) + 1
    {
      touches := touches + 1;
      r := answer;
    }
  }

  /** txWrapper (tx.go:9-12): the transaction and its one error cell. */
  class TxWrapper {
    const tx: StubTx
    var err: Option<Error>

    constructor (tx: StubTx)
      ensures this.tx == tx && err == None
    {
      this.tx := tx;
      err := None;
    }

    /** Abort (tx.go:14-23). On a wrapper that already holds an error Go
        panics; here `panicked` is true and nothing changes. Otherwise the
        error is recorded and the transaction rolled back exactly once. */
    method Abort(e: Error) returns (panicked: bool)
      modifies this, tx
      ensures panicked <==> old(err).Some?
      ensures panicked ==> err == old(err) && unchanged(tx)
      ensures !panicked ==> err == Some(e) && tx.rollbacks == old(tx.rollbacks) + 1
      ensures tx.calls == old(tx.calls)
    {
      if err.Some? {
        return true;
      }
      err := Some(e);
      tx.Rollback();
      return false;
    }

    /** ExecContext (tx.go:25-35): refused once aborted, without calling the
        transaction; a failing statement aborts with its own error, which is
        also returned. */
    method ExecContext(answer: Outcome) returns (r: Outcome)
      modifies this, tx
      ensures old(err).Some? ==> r == Fail(AlreadyAborted) && err == old(err) && unchanged(tx)
      ensures old(err).None? ==>
        && r == answer && tx.calls == old(tx.calls) + 1
        && err == answer.AsError()
        && tx.rollbacks == old(tx.rollbacks) + (if answer.Fail? then 1 else 0)
    {
      if err.Some? {
        return Fail(AlreadyAborted);
      }
      r := tx.Call(answer);
      if r.Fail? {
        var panicked := Abort(r.error);
        assert !panicked;
      }
    }

    /** QueryContext (tx.go:37-46): as ExecContext, and on success a rows
        wrapper that shares this wrapper (not a copy of it). */
    method QueryContext(answer: Outcome) returns (rows: RowsWrapper?, r: Outcome)
      modifies this, tx
      ensures rows != null <==> r.Pass?
      ensures rows != null ==> fresh(rows) && fresh(rows.cursor) && rows.txw == this && rows.cursor.touches == 0
      ensures old(err).Some? ==> r == Fail(AlreadyAborted) && err == old(err) && unchanged(tx)
      ensures old(err).None? ==>
        && r == answer && tx.calls == old(tx.calls) + 1
        && err == answer.AsError()
        && tx.rollbacks == old(tx.rollbacks) + (if answer.Fail? then 1 else 0)
    {
      if err.Some? {
        return null, Fail(AlreadyAborted);
      }
      r := tx.Call(answer);
      if r.Fail? {
        var panicked := Abort(r.error);
        assert !panicked;
        return null, r;
      }
      var cursor := new StubCursor();
      rows := new RowsWrapper(this, cursor);
    }

    /** QueryRowContext (tx.go:48-53): never fails itself; once aborted the
        row holds no driver row and the transaction is not called. */
    method QueryRowContext() returns (row: RowWrapper)
      modifies tx
      ensures fresh(row) && row.txw == this && row.Valid()
      ensures old(err).Some? <==> row.row == null
      ensures row.row != null ==> fresh(row.row) && row.row.touches == 0
      ensures tx.calls == old(tx.calls) + (if old(err).None? then 1 else 0)
      ensures tx.rollbacks == old(tx.rollbacks)
    {
      if err.Some? {
        row := new RowWrapper(this, null);
        return;
      }
      var _ := tx.Call(Pass);
      var driverRow := new StubCursor();
      row := new RowWrapper(this, driverRow);
    }
  }

  /** rowWrapper (tx.go:55-58). `row` is null only when the wrapper was
      already aborted when the row was asked for, and an error, once
      recorded, stays. */
  class RowWrapper {
    const row: StubCursor?
    const txw: TxWrapper

    ghost predicate Valid()
      reads this, txw
    {
      row == null ==> txw.err.Some?
    }

    constructor (txw: TxWrapper, row: StubCursor?)
      requires row == null ==> txw.err.Some?
      ensures this.txw == txw && this.row == row && Valid()
    {
      this.txw := txw;
      this.row := row;
    }

    /** Scan (tx.go:60-69): refused once aborted, before the (possibly
        missing) driver row is used; a failing scan aborts the transaction. */
    method Scan(answer: Outcome) returns (r: Outcome)
      requires Valid()
      modifies txw, txw.tx, row
      ensures Valid()
      ensures old(txw.err).Some? ==>
        r == Fail(AlreadyAborted) && txw.err == old(txw.err) && unchanged(txw.tx) && (row != null ==> unchanged(row))
      ensures old(txw.err).None? ==>
        && row != null && r == answer && row.touches == old(row.touches) + 1
        && txw.err == answer.AsError() && txw.tx.calls == old(txw.tx.calls)
        && txw.tx.rollbacks == old(txw.tx.rollbacks) + (if answer.Fail? then 1 else 0)
    {
      if txw.err.Some? {
        return Fail(AlreadyAborted);
      }
      r := row.Use(answer);
      if r.Fail? {
        var panicked := txw.Abort(r.error);
        assert !panicked;
      }
    }
  }

  /** rowsWrapper (tx.go:71-74). */
  class RowsWrapper {
    const cursor: StubCursor
    const txw: TxWrapper

    constructor (txw: TxWrapper, cursor: StubCursor)
      ensures this.txw == txw && this.cursor == cursor
    {
      this.txw := txw;
      this.cursor := cursor;
    }

    /** Scan (tx.go:76-86): as RowWrapper.Scan. */
    method Scan(answer: Outcome) returns (r: Outcome)
      modifies txw, txw.tx, cursor
      ensures old(txw.err).Some? ==>
        r == Fail(AlreadyAborted) && txw.err == old(txw.err) && unchanged(txw.tx) && unchanged(cursor)
      ensures old(txw.err).None? ==>
        && r == answer && cursor.touches == old(cursor.touches) + 1
        && txw.err == answer.AsError() && txw.tx.calls == old(txw.tx.calls)
        && txw.tx.rollbacks == old(txw.tx.rollbacks) + (if answer.Fail? then 1 else 0)
    {
      if txw.err.Some? {
        return Fail(AlreadyAborted);
      }
      r := cursor.Use(answer);
      if r.Fail? {
        var panicked := txw.Abort(r.error);
        assert !panicked;
      }
    }

    /** Next (tx.go:88-93): false once aborted, without asking the cursor. */
    method Next(answer: bool) returns (more: bool)
      modifies cursor
      ensures txw.err.Some? ==> !more && unchanged(cursor)
      ensures txw.err.None? ==> more == answer && cursor.touches == old(cursor.touches) + 1
    {
      if txw.err.Some? {
        return false;
      }
      more := cursor.Use(answer);
    }

    /** Close (tx.go:95-100). */
    method Close(answer: Outcome) returns (r: Outcome)
      modifies cursor
      ensures txw.err.Some? ==> r == Fail(AlreadyAborted) && unchanged(cursor)
      ensures txw.err.None? ==> r == answer && cursor.touches == old(cursor.touches) + 1
    {
      if txw.err.Some? {
        return Fail(AlreadyAborted);
      }
      r := cursor.Use(answer);
    }

    /** Err (tx.go:102-107). */
    method Err(answer: Outcome) returns (r: Outcome)
      modifies cursor
      ensures txw.err.Some? ==> r == Fail(AlreadyAborted) && unchanged(cursor)
      ensures txw.err.None? ==> r == answer && cursor.touches == old(cursor.touches) + 1
    {
      if txw.err.Some? {
        return Fail(AlreadyAborted);
      }
      r := cursor.Use(answer);
    }
  }

  /** A rows wrapper obtained before an abort observes it: after a failing
      ExecContext, Next is false and Scan, Close and Err report the abort,
      while the driver cursor is never used and the transaction was rolled
      back once. */
  method CursorAfterAbort(e: Error) returns (rollbacks: nat, more: bool, scan: Outcome, closed: Outcome, touches: nat)
    ensures rollbacks == 1 && !more && touches == 0
    ensures scan == Fail(AlreadyAborted) && closed == Fail(AlreadyAborted)
  {
    var tx := new StubTx();
    var w := new TxWrapper(tx);
    var rows, r := w.QueryContext(Pass);
    var x := w.ExecContext(Fail(e));
    more := rows.Next(true);
    scan := rows.Scan(Pass);
    closed := rows.Close(Pass);
    rollbacks, touches := tx.rollbacks, rows.cursor.touches;
  }

  /** A second Abort panics and leaves the first error in place, and so
      does every later failure reported to the wrapper: the first error is
      the one kept. */
  method FirstErrorSticks(e1: Error, e2: Error) returns (panicked: bool, kept: Option<Error>, rollbacks: nat)
    ensures panicked && kept == Some(e1) && rollbacks == 1
  {
    var tx := new StubTx();
    var w := new TxWrapper(tx);
    var x := w.ExecContext(Fail(e1));
    var y := w.ExecContext(Fail(e2));
    panicked := w.Abort(e2);
    kept, rollbacks := w.err, tx.rollbacks;
  }
}
