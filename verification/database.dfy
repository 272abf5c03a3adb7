/**
 * The PostgreSQL connection the scrapers write to, reduced to what they
 * rely on: the set of tables, the rows of the open transaction (`pending`)
 * and the rows made durable by a commit (`committed`). Whether the server
 * accepts a row is an oracle fixed when the connection is opened.
 */
module Database {

  /** The server accepts every row of `rows`. */
  predicate AllAccepted<R(==)>(rows: seq<R>, rejects: R -> bool)
  {
    forall r :: r in rows ==> !rejects(r)
  }

  /** The position of the first row the server rejects, or |rows| if there is none. */
  function FirstRejected<R(==)>(rows: seq<R>, rejects: R -> bool): (k: nat)
    ensures k <= |rows|
    ensures forall j :: 0 <= j < k ==> !rejects(rows[j])
    ensures k < |rows| ==> rejects(rows[k])
  {
    if rows == [] || rejects(rows[0]) then 0 else 1 + FirstRejected(rows[1..], rejects)
  }

  /** The rows of `batches`, one batch after the other. */
  function Concat<R(==)>(batches: seq<seq<R>>): seq<R>
  {
    if batches == [] then [] else Concat(batches[..|batches| - 1]) + batches[|batches| - 1]
  }

  lemma ConcatAppend<R>(batches: seq<seq<R>>, b: seq<R>)
    ensures Concat(batches + [b]) == Concat(batches) + b
  {
    assert (batches + [b])[..|batches|] == batches;
  }

  lemma AppendAssociates<R>(a: seq<R>, b: seq<R>, c: seq<R>)
    ensures a + b + c == a + (b + c)
  {
  }

  /** Rows committed on top of `base + Concat(batches)` extend it by one batch. */
  lemma CommitAppends<R>(base: seq<R>, before: seq<R>, after: seq<R>, batches: seq<seq<R>>, b: seq<R>)
    requires before == base + Concat(batches) && after == before + b
    ensures after == base + Concat(batches + [b])
  {
    ConcatAppend(batches, b);
  }

  /**
   * The rows that stay committed when each row is inserted in a transaction
   * of its own, a rejected row being rolled back: exactly the accepted ones,
   * in their order.
   */
  function AcceptedRows<R>(rows: seq<R>, rejects: R -> bool): (r: seq<R>)
    ensures |r| <= |rows|
  {
    if |rows| == 0 then []
    else (if rejects(rows[0]) then [] else [rows[0]]) + AcceptedRows(rows[1..], rejects)
  }

  /** A row stays committed exactly when it was inserted and the server accepted it. */
  lemma {:induction false} AcceptedRowsMembers<R>(rows: seq<R>, rejects: R -> bool, x: R)
    ensures x in AcceptedRows(rows, rejects) <==> x in rows && !rejects(x)
    decreases |rows|
  {
    if |rows| > 0 {
      AcceptedRowsMembers(rows[1..], rejects, x);
      assert rows == [rows[0]] + rows[1..];
    }
  }

  lemma {:induction false} AcceptedRowsAppend<R>(a: seq<R>, b: seq<R>, rejects: R -> bool)
    ensures AcceptedRows(a + b, rejects) == AcceptedRows(a, rejects) + AcceptedRows(b, rejects)
  {
    if |a| == 0 {
      assert a + b == b;
    } else {
      assert (a + b)[1..] == a[1..] + b;
      AcceptedRowsAppend(a[1..], b, rejects);
    }
  }

  /**
   * The rows that stay committed when each batch is one all-or-nothing
   * transaction: a batch holding a rejected row leaves nothing behind.
   */
  function AcceptedBatches<R(==)>(batches: seq<seq<R>>, rejects: R -> bool): (r: seq<R>)
    ensures forall x :: x in r ==> !rejects(x)
    ensures |r| <= |Concat(batches)|
  {
    if batches == [] then []
    else
      var last := batches[|batches| - 1];
      AcceptedBatches(batches[..|batches| - 1], rejects) + (if AllAccepted(last, rejects) then last else [])
  }

  lemma AcceptedBatchesAppend<R>(batches: seq<seq<R>>, b: seq<R>, rejects: R -> bool)
    ensures AcceptedBatches(batches + [b], rejects) ==
              AcceptedBatches(batches, rejects) + (if AllAccepted(b, rejects) then b else [])
  {
    assert (batches + [b])[..|batches|] == batches;
  }

  /**
   * One more batch saved all-or-nothing on top of `AcceptedBatches`: the
   * committed rows grow by the batch when the server accepts all of it and
   * stay as they were otherwise.
   */
  lemma CommitBatch<R>(base: seq<R>, before: seq<R>, pending: seq<R>, after: seq<R>,
                       batches: seq<seq<R>>, b: seq<R>, rejects: R -> bool)
    requires before == base + AcceptedBatches(batches, rejects) && pending == []
    requires AllAccepted(b, rejects) ==> after == before + pending + b
    requires !AllAccepted(b, rejects) ==> after == before
    ensures after == base + AcceptedBatches(batches + [b], rejects)
  {
    AcceptedBatchesAppend(batches, b, rejects);
  }

  class Connection<R(==)> {
    var tables: set<string>
    var pending: seq<R>
    var committed: seq<R>
    /** Whether the server refuses to insert a row (constraint violation, lost connection, ...). */
    const rejects: R -> bool

    constructor (rejects: R -> bool)
      ensures tables == {} && pending == [] && committed == []
      ensures this.rejects == rejects
    {
      this.rejects := rejects;
      tables, pending, committed := {}, [], [];
    }

    /**
     * `CREATE TABLE IF NOT EXISTS name` followed by `commit()`: the table is
     * there afterwards, an existing one is left as it is, and the commit
     * also makes whatever was pending durable.
     */
    method CreateTable(name: string)
      modifies this
      ensures tables == old(tables) + {name}
      ensures committed == old(committed) + old(pending) && pending == []
    {
      if name !in tables {
        tables := tables + {name};
      }
      Commit();
    }

    /** `cursor.execute(INSERT ...)`: the row joins the open transaction unless the server rejects it. */
    method Execute(row: R) returns (ok: bool)
      modifies this`pending
      ensures ok == !rejects(row)
      ensures pending == if ok then old(pending) + [row] else old(pending)
    {
      ok := !rejects(row);
      if ok {
        pending := pending + [row];
      }
    }

    /**
     * `cursor.executemany(INSERT ..., rows)`: the rows are executed in order
     * and the first rejected one raises, so only the rows before it join the
     * open transaction.
     */
    method ExecuteMany(rows: seq<R>) returns (ok: bool)
      modifies this`pending
      ensures ok == AllAccepted(rows, rejects)
      ensures pending == old(pending) + rows[..FirstRejected(rows, rejects)]
    {
      var i := 0;
      ok := true;
      while i < |rows|
        invariant 0 <= i <= FirstRejected(rows, rejects)
        invariant pending == old(pending) + rows[..i]
        invariant forall j :: 0 <= j < i ==> !rejects(rows[j])
      {
        var accepted := Execute(rows[i]);
        if !accepted {
          ok := false;
          return;
        }
        assert rows[..i + 1] == rows[..i] + [rows[i]];
        i := i + 1;
      }
      assert rows[..i] == rows;
    }

    /** `conn.commit()`: the open transaction becomes durable. */
    method Commit()
      modifies this`pending, this`committed
      ensures committed == old(committed) + old(pending) && pending == []
    {
      committed := committed + pending;
      pending := [];
    }

    /** `conn.rollback()`: the open transaction is discarded. */
    method Rollback()
      modifies this`pending
      ensures pending == []
    {
      pending := [];
    }
  }

  /**
   * `save_to_db`: one `executemany` for the whole page, then `commit()`; on
   * a database error `rollback()`. The page is stored entirely or not at all.
   */
  method SaveToDb<R(==)>(conn: Connection<R>, rows: seq<R>)
    modifies conn
    ensures conn.pending == [] && conn.tables == old(conn.tables)
    ensures AllAccepted(rows, conn.rejects) ==> conn.committed == old(conn.committed) + old(conn.pending) + rows
    ensures !AllAccepted(rows, conn.rejects) ==> conn.committed == old(conn.committed)
  {
    var ok := conn.ExecuteMany(rows);
    if ok {
      conn.Commit();
    } else {
      conn.Rollback();
    }
  }
}
