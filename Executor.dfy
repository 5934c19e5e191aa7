/** What `sqlQuery` does with a statement: the deadline, the connection,
    and the loop that turns result rows into datasets and, after each row,
    either throws or stops once the deadline has passed. The database and
    the clock are parameters: the database as what it answers, the clock as
    the sequence of values `System.currentTimeMillis` returns, one per call. */
module Executor {
  import opened Outcomes
  import opened RowKey

  /** An executed statement: the position `findColumn` reports for each
      column it knows (a column it does not know counts as -1), and the
      rows, each the values of its columns 1, 2, ... (None for SQL NULL). */
  datatype ResultSet = ResultSet(locate: map<string, int>, rows: seq<seq<Option<string>>>)

  /** The data source as `sqlQuery` sees it: whether a connection can be
      had with a given login timeout (in seconds), and the result of
      executing a statement (None when the statement is refused). */
  datatype Backend = Backend(connect: int -> bool, execute: string -> Option<ResultSet>)

  /** How a query call fails. All but MalformedKey are TimeoutExceptions:
      the deadline passed before the statement was sent, no connection, or a
      failure while sending the statement or reading its rows (`cause` is
      the deadline passing during the rows, which the surrounding catch
      wraps). MalformedKey is the exception `decode` throws on a key with
      a dangling escape marker. */
  datatype QueryError =
    | DeadlineExceeded
    | NoConnection
    | QueryFailed(cause: Option<QueryError>)
    | MalformedKey

  /** Where `findColumn` puts a column; -1 when it does not know it. */
  function ColumnIndex(rs: ResultSet, column: string): int
  {
    if column in rs.locate then rs.locate[column] else -1
  }

  /** The login timeout for a query timeout in milliseconds: whole seconds,
      at least 1. (Java's long division rounds toward zero and Dafny's
      downward; both give a value below 1 exactly when the timeout is below
      1000, so the result is the same.) */
  function LoginTimeout(timeout: int): (s: int)
    ensures s >= 1
    ensures timeout < 1000 ==> s == 1
    ensures timeout >= 1000 ==> s * 1000 <= timeout < (s + 1) * 1000
  {
    if timeout / 1000 < 1 then 1 else timeout / 1000
  }

  /** Every schema column's position lies within the row, so that
      `getString` can be asked for it. */
  predicate Readable(schema: set<string>, rs: ResultSet, row: seq<Option<string>>)
  {
    forall c :: c in schema ==> ColumnIndex(rs, c) <= |row|
  }

  /** The value of a column in a row: the value at its position, or None
      when the position is not positive (a column the result set lacks). */
  function Cell(rs: ResultSet, row: seq<Option<string>>, column: string): (v: Option<string>)
    requires ColumnIndex(rs, column) <= |row|
    ensures ColumnIndex(rs, column) <= 0 ==> v.None?
  {
    if ColumnIndex(rs, column) > 0 then row[ColumnIndex(rs, column) - 1] else None
  }

  /** The data map of a row: every schema column mapped to its cell. None
      when a position lies beyond the row's columns, where `getString`
      throws. */
  function RowData(schema: set<string>, rs: ResultSet, row: seq<Option<string>>): (r: Option<map<string, Option<string>>>)
    ensures r.Some? <==> Readable(schema, rs, row)
    ensures r.Some? ==> r.value.Keys == schema
    ensures r.Some? ==> forall c :: c in schema ==> r.value[c] == Cell(rs, row, c)
  {
    if Readable(schema, rs, row)
    then Some(map c | c in schema :: Cell(rs, row, c))
    else None
  }

  /** The dataset made from a row's data, with its key. */
  function MakeDataset(keyCols: seq<string>, data: map<string, Option<string>>): Dataset
  {
    Dataset(data, KeyOf(keyCols, data))
  }

  /** `get` on a dataset made from a row: the cell of a schema column
      (None where the result set lacks the column), ColumnNotFound for any
      other column, even one the result set has. */
  lemma GetCell(schema: set<string>, keyCols: seq<string>, rs: ResultSet, row: seq<Option<string>>, column: string)
    requires RowData(schema, rs, row).Some?
    ensures var d := MakeDataset(keyCols, RowData(schema, rs, row).value);
            Get(schema, d, column) == if column in schema then Success(Cell(rs, row, column)) else Failure(column)
  {
  }

  /** The datasets `ds` in front of what a later part of the loop yields. */
  function Prepend(ds: seq<Dataset>, r: Result<seq<Dataset>, QueryError>): Result<seq<Dataset>, QueryError>
  {
    match r
    case Failure(e) => Failure(e)
    case Success(more) => Success(ds + more)
  }

  /** The loop over the rows from row `k` on. Row `k` is read and added,
      then the clock is read (reading `clock + k`): past the deadline a hard
      query fails and a soft one stops. */
  function Collected(schema: set<string>, keyCols: seq<string>, rs: ResultSet,
                     now: nat -> int, clock: nat, endTime: int, hard: bool, k: nat)
    : Result<seq<Dataset>, QueryError>
    decreases |rs.rows| - k
  {
    if k >= |rs.rows| then Success([])
    else
      match RowData(schema, rs, rs.rows[k])
      case None => Failure(QueryFailed(None))
      case Some(data) =>
        var d := MakeDataset(keyCols, data);
        if now(clock + k) > endTime then
          (if hard then Failure(QueryFailed(Some(DeadlineExceeded))) else Success([d]))
        else Prepend([d], Collected(schema, keyCols, rs, now, clock, endTime, hard, k + 1))
  }

  /** `sqlQuery(query, timeout, hard)` with the clock readings from
      `now(start)` on: the deadline is the first reading plus the timeout;
      if the second reading is already past it, a hard query fails and a
      soft one yields nothing, without touching the database. */
  function QueryOutcome(schema: set<string>, keyCols: seq<string>, backend: Backend,
                        query: string, timeout: int, hard: bool, now: nat -> int, start: nat)
    : Result<seq<Dataset>, QueryError>
  {
    var endTime := now(start) + timeout;
    if now(start + 1) > endTime then
      (if hard then Failure(DeadlineExceeded) else Success([]))
    else if !backend.connect(LoginTimeout(timeout)) then Failure(NoConnection)
    else
      match backend.execute(query)
      case None => Failure(QueryFailed(None))
      case Some(rs) => Collected(schema, keyCols, rs, now, start + 2, endTime, hard, 0)
  }

  // ---------------------------------------------------------------------
  // The timeout policy

  /** The first dataset the loop yields from row `k` on comes from row `k`,
      and the others are what the loop yields from row `k + 1` on. */
  lemma CollectedHead(schema: set<string>, keyCols: seq<string>, rs: ResultSet, now: nat -> int,
                      clock: nat, endTime: int, hard: bool, k: nat, ds: seq<Dataset>)
    requires Collected(schema, keyCols, rs, now, clock, endTime, hard, k) == Success(ds)
    requires ds != []
    ensures k < |rs.rows| && RowData(schema, rs, rs.rows[k]) == Some(ds[0].data)
    ensures ds[0].key == KeyOf(keyCols, ds[0].data)
    ensures |ds| > 1 ==> Collected(schema, keyCols, rs, now, clock, endTime, hard, k + 1) == Success(ds[1..])
  {
    var data := RowData(schema, rs, rs.rows[k]).value;
    if now(clock + k) <= endTime {
      var more := Collected(schema, keyCols, rs, now, clock, endTime, hard, k + 1).value;
      assert ds == [MakeDataset(keyCols, data)] + more;
      assert ds[1..] == more;
    }
  }

  /** Dataset `i` of what the loop yields from row `k` on comes from row
      `k + i`: it holds that row's data and the key of that data. */
  lemma {:induction false} CollectedRow(schema: set<string>, keyCols: seq<string>, rs: ResultSet, now: nat -> int,
                                        clock: nat, endTime: int, hard: bool, k: nat, ds: seq<Dataset>, i: nat)
    requires Collected(schema, keyCols, rs, now, clock, endTime, hard, k) == Success(ds)
    requires i < |ds|
    ensures k + i < |rs.rows| && RowData(schema, rs, rs.rows[k + i]) == Some(ds[i].data)
    ensures ds[i].key == KeyOf(keyCols, ds[i].data)
    decreases i
  {
    CollectedHead(schema, keyCols, rs, now, clock, endTime, hard, k, ds);
    if i > 0 {
      var next, j, more := k + 1, i - 1, ds[1..];
      CollectedRow(schema, keyCols, rs, now, clock, endTime, hard, next, more, j);
      CollectedRowStep(schema, keyCols, rs, k, ds, i, next, more, j);
    }
  }

  /** The step of `CollectedRow`: dataset `j` of those after the first,
      from row `next`, is dataset `i` from row `k`. */
  lemma CollectedRowStep(schema: set<string>, keyCols: seq<string>, rs: ResultSet, k: nat, ds: seq<Dataset>, i: nat,
                         next: nat, more: seq<Dataset>, j: nat)
    requires 0 < i < |ds| && next == k + 1 && j == i - 1 && more == ds[1..]
    requires next + j < |rs.rows| && RowData(schema, rs, rs.rows[next + j]) == Some(more[j].data)
    requires more[j].key == KeyOf(keyCols, more[j].data)
    ensures k + i < |rs.rows| && RowData(schema, rs, rs.rows[k + i]) == Some(ds[i].data)
    ensures ds[i].key == KeyOf(keyCols, ds[i].data)
  {
    assert more[j] == ds[i];
    assert next + j == k + i;
  }

  /** The datasets `ds` stand for consecutive rows from row `k` on: each
      holds the data of its row and the key of that data. */
  predicate RowsFrom(schema: set<string>, keyCols: seq<string>, rs: ResultSet, k: nat, ds: seq<Dataset>)
  {
    k + |ds| <= |rs.rows| &&
    forall i :: 0 <= i < |ds| ==>
      RowData(schema, rs, rs.rows[k + i]) == Some(ds[i].data) && ds[i].key == KeyOf(keyCols, ds[i].data)
  }

  /** Whatever the loop yields is the rows from `k` on, in order, each with
      the schema columns' values and its key. */
  lemma CollectedRows(schema: set<string>, keyCols: seq<string>, rs: ResultSet,
                      now: nat -> int, clock: nat, endTime: int, hard: bool, k: nat)
    requires k <= |rs.rows|
    requires Collected(schema, keyCols, rs, now, clock, endTime, hard, k).Success?
    ensures RowsFrom(schema, keyCols, rs, k, Collected(schema, keyCols, rs, now, clock, endTime, hard, k).value)
  {
    var ds := Collected(schema, keyCols, rs, now, clock, endTime, hard, k).value;
    forall i | 0 <= i < |ds|
      ensures k + i < |rs.rows| && RowData(schema, rs, rs.rows[k + i]) == Some(ds[i].data)
      ensures ds[i].key == KeyOf(keyCols, ds[i].data)
    {
      CollectedRow(schema, keyCols, rs, now, clock, endTime, hard, k, ds, i);
    }
    if ds != [] {
      CollectedRow(schema, keyCols, rs, now, clock, endTime, hard, k, ds, |ds| - 1);
    }
  }

  /** A hard loop that succeeds read every row from `k` on and found the
      clock within the deadline after each. */
  lemma {:induction false} HardCollectedComplete(schema: set<string>, keyCols: seq<string>, rs: ResultSet,
                                                 now: nat -> int, clock: nat, endTime: int, k: nat)
    requires k <= |rs.rows|
    requires Collected(schema, keyCols, rs, now, clock, endTime, true, k).Success?
    ensures k + |Collected(schema, keyCols, rs, now, clock, endTime, true, k).value| == |rs.rows|
    ensures forall t :: clock + k <= t < clock + |rs.rows| ==> now(t) <= endTime
    decreases |rs.rows| - k
  {
    if k < |rs.rows| {
      HardCollectedComplete(schema, keyCols, rs, now, clock, endTime, k + 1);
    }
  }

  /** A query yields datasets for a prefix of the result's rows, in their
      order: dataset `i` holds the data of row `i` (the values of the schema
      columns, None for a column the result set does not have) and the key
      of that data. */
  lemma ResultIsPrefix(schema: set<string>, keyCols: seq<string>, backend: Backend,
                       query: string, timeout: int, hard: bool, now: nat -> int, start: nat)
    requires QueryOutcome(schema, keyCols, backend, query, timeout, hard, now, start).Success?
    ensures var ds := QueryOutcome(schema, keyCols, backend, query, timeout, hard, now, start).value;
            ds == [] || (backend.execute(query).Some? && RowsFrom(schema, keyCols, backend.execute(query).value, 0, ds))
  {
    var endTime := now(start) + timeout;
    if now(start + 1) <= endTime && backend.connect(LoginTimeout(timeout)) && backend.execute(query).Some? {
      CollectedRows(schema, keyCols, backend.execute(query).value, now, start + 2, endTime, hard, 0);
    }
  }

  /** A hard query that succeeds has every row of the result and found the
      clock within the deadline at every check. */
  lemma HardQueryIsComplete(schema: set<string>, keyCols: seq<string>, backend: Backend,
                            query: string, timeout: int, now: nat -> int, start: nat)
    requires QueryOutcome(schema, keyCols, backend, query, timeout, true, now, start).Success?
    ensures backend.execute(query).Some?
    ensures var rs := backend.execute(query).value;
            |QueryOutcome(schema, keyCols, backend, query, timeout, true, now, start).value| == |rs.rows| &&
            forall t :: start < t < start + 2 + |rs.rows| ==> now(t) <= now(start) + timeout
  {
    var rs := backend.execute(query).value;
    var endTime := now(start) + timeout;
    HardCollectedComplete(schema, keyCols, rs, now, start + 2, endTime, 0);
  }

  /** The loop of a soft query never fails because of the deadline, and
      stops early only right after a row at which the deadline had passed. */
  lemma {:induction false} SoftCollected(schema: set<string>, keyCols: seq<string>, rs: ResultSet,
                                         now: nat -> int, clock: nat, endTime: int, k: nat)
    requires k <= |rs.rows|
    ensures var r := Collected(schema, keyCols, rs, now, clock, endTime, false, k);
            (r.Failure? ==> r.error == QueryFailed(None)) &&
            (r.Success? && k + |r.value| < |rs.rows| ==> |r.value| > 0 && now(clock + k + |r.value| - 1) > endTime)
    decreases |rs.rows| - k
  {
    if k < |rs.rows| && RowData(schema, rs, rs.rows[k]).Some? && now(clock + k) <= endTime {
      SoftCollected(schema, keyCols, rs, now, clock, endTime, k + 1);
    }
  }

  /** The soft loop stops at the first check that finds the deadline
      passed: every check before its last dataset was within the deadline. */
  lemma {:induction false} SoftCollectedChecks(schema: set<string>, keyCols: seq<string>, rs: ResultSet,
                                               now: nat -> int, clock: nat, endTime: int, k: nat)
    requires k <= |rs.rows|
    ensures var r := Collected(schema, keyCols, rs, now, clock, endTime, false, k);
            r.Success? ==> forall t :: clock + k <= t < clock + k + |r.value| - 1 ==> now(t) <= endTime
    decreases |rs.rows| - k
  {
    if k < |rs.rows| && RowData(schema, rs, rs.rows[k]).Some? && now(clock + k) <= endTime {
      SoftCollectedChecks(schema, keyCols, rs, now, clock, endTime, k + 1);
    }
  }

  /** A soft query fails only for want of a connection, of a statement
      the database accepts or of rows it can read; never because of the
      deadline. */
  lemma SoftQueryErrors(schema: set<string>, keyCols: seq<string>, backend: Backend,
                        query: string, timeout: int, now: nat -> int, start: nat)
    requires QueryOutcome(schema, keyCols, backend, query, timeout, false, now, start).Failure?
    ensures QueryOutcome(schema, keyCols, backend, query, timeout, false, now, start).error in {NoConnection, QueryFailed(None)}
  {
    var endTime := now(start) + timeout;
    if now(start + 1) <= endTime && backend.connect(LoginTimeout(timeout)) && backend.execute(query).Some? {
      SoftCollected(schema, keyCols, backend.execute(query).value, now, start + 2, endTime, 0);
    }
  }

  /** When a soft query yields fewer datasets than the result has rows, the
      deadline had passed: at entry, or right after the last row it yields. */
  lemma SoftQueryTruncation(schema: set<string>, keyCols: seq<string>, backend: Backend, rs: ResultSet,
                            query: string, timeout: int, now: nat -> int, start: nat, ds: seq<Dataset>)
    requires backend.execute(query) == Some(rs)
    requires QueryOutcome(schema, keyCols, backend, query, timeout, false, now, start) == Success(ds)
    requires |ds| < |rs.rows|
    ensures now(start + 1) > now(start) + timeout || (|ds| > 0 && now(start + 1 + |ds|) > now(start) + timeout)
  {
    var endTime := now(start) + timeout;
    if now(start + 1) <= endTime {
      SoftCollected(schema, keyCols, rs, now, start + 2, endTime, 0);
    }
  }

  /** A soft query stops at the first clock reading past the deadline:
      every reading it made before yielding its last dataset, the one at
      entry included, was within the deadline. */
  lemma SoftQueryChecks(schema: set<string>, keyCols: seq<string>, backend: Backend,
                        query: string, timeout: int, now: nat -> int, start: nat, ds: seq<Dataset>)
    requires QueryOutcome(schema, keyCols, backend, query, timeout, false, now, start) == Success(ds)
    ensures forall t :: start + 1 <= t < start + 1 + |ds| ==> now(t) <= now(start) + timeout
  {
    var endTime := now(start) + timeout;
    if now(start + 1) <= endTime && backend.connect(LoginTimeout(timeout)) && backend.execute(query).Some? {
      var rs := backend.execute(query).value;
      SoftCollectedChecks(schema, keyCols, rs, now, start + 2, endTime, 0);
    }
  }

  /** A deadline already past at entry: the hard query fails with
      DeadlineExceeded and the soft one yields nothing, whatever the database. */
  lemma DeadlineAtEntry(schema: set<string>, keyCols: seq<string>, backend: Backend,
                        query: string, timeout: int, now: nat -> int, start: nat)
    requires now(start + 1) > now(start) + timeout
    ensures QueryOutcome(schema, keyCols, backend, query, timeout, true, now, start) == Failure(DeadlineExceeded)
    ensures QueryOutcome(schema, keyCols, backend, query, timeout, false, now, start) == Success([])
  {
  }

  /** The loop with the deadline thrown and the loop with it stopped agree
      up to the row where it passes: where the hard one succeeds the soft one
      yields the same, and where the hard one fails for the deadline the
      soft one yields a non-empty prefix. */
  lemma {:induction false} HardSoftCollected(schema: set<string>, keyCols: seq<string>, rs: ResultSet,
                                             now: nat -> int, clock: nat, endTime: int, k: nat)
    requires k <= |rs.rows|
    ensures var h := Collected(schema, keyCols, rs, now, clock, endTime, true, k);
            var s := Collected(schema, keyCols, rs, now, clock, endTime, false, k);
            (h.Success? ==> s == h) &&
            (h == Failure(QueryFailed(None)) ==> s == h) &&
            (h == Failure(QueryFailed(Some(DeadlineExceeded))) ==> s.Success? && |s.value| > 0)
    decreases |rs.rows| - k
  {
    if k < |rs.rows| && RowData(schema, rs, rs.rows[k]).Some? && now(clock + k) <= endTime {
      HardSoftCollected(schema, keyCols, rs, now, clock, endTime, k + 1);
    }
  }

  /** Throwing on the deadline or stopping at it only matters once the
      deadline has passed: a hard query that succeeds yields what the soft
      one yields, and one that fails for a reason other than the deadline
      fails the same way soft. */
  lemma HardSoftAgree(schema: set<string>, keyCols: seq<string>, backend: Backend,
                      query: string, timeout: int, now: nat -> int, start: nat)
    ensures var h := QueryOutcome(schema, keyCols, backend, query, timeout, true, now, start);
            var s := QueryOutcome(schema, keyCols, backend, query, timeout, false, now, start);
            (h.Success? ==> s == h) &&
            (h.Failure? && h.error != DeadlineExceeded && h.error != QueryFailed(Some(DeadlineExceeded)) ==> s == h) &&
            (h == Failure(QueryFailed(Some(DeadlineExceeded))) ==> s.Success? && |s.value| > 0)
  {
    var endTime := now(start) + timeout;
    if now(start + 1) <= endTime && backend.connect(LoginTimeout(timeout)) && backend.execute(query).Some? {
      var rs := backend.execute(query).value;
      HardSoftCollected(schema, keyCols, rs, now, start + 2, endTime, 0);
      var h := Collected(schema, keyCols, rs, now, start + 2, endTime, true, 0);
      assert QueryOutcome(schema, keyCols, backend, query, timeout, true, now, start) == h;
      assert QueryOutcome(schema, keyCols, backend, query, timeout, false, now, start)
          == Collected(schema, keyCols, rs, now, start + 2, endTime, false, 0);
      if h.Failure? {
        var e := h.error;
        assert e == QueryFailed(None) || e == QueryFailed(Some(DeadlineExceeded)) by {
          HardCollectedErrors(schema, keyCols, rs, now, start + 2, endTime, 0);
        }
      }
    }
  }

  lemma {:induction false} HardCollectedErrors(schema: set<string>, keyCols: seq<string>, rs: ResultSet,
                                               now: nat -> int, clock: nat, endTime: int, k: nat)
    requires k <= |rs.rows|
    ensures var h := Collected(schema, keyCols, rs, now, clock, endTime, true, k);
            h.Failure? ==> h.error == QueryFailed(None) || h.error == QueryFailed(Some(DeadlineExceeded))
    decreases |rs.rows| - k
  {
    if k < |rs.rows| && RowData(schema, rs, rs.rows[k]).Some? && now(clock + k) <= endTime {
      HardCollectedErrors(schema, keyCols, rs, now, clock, endTime, k + 1);
    }
  }
}
