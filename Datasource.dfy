/** The OOoDatasource object: the definition its constructor accepts, the
    key columns `parseKey` sets, and the three queries, which build their
    statement text and hand it to `sqlQuery` with a deadline. The database
    and the clock are parameters of each query (see module Executor). */
module Datasource {
  import opened Outcomes
  import opened RowKey
  import opened Queries
  import opened Schema
  import opened Executor

  class OOoDatasource {
    var datasourceName: string
    var sourceName: string
    var tableName: string
    var schema: set<string>
    var keyColumns: seq<string>

    /** The definition this object holds. */
    function CurrentSettings(): Settings
      reads this
    {
      Settings(datasourceName, sourceName, tableName, schema, keyColumns)
    }

    /** The fields as the constructor has set them before the key columns
        are known. */
    constructor (name: string, source: string, table: string, columns: set<string>)
      ensures datasourceName == name && sourceName == source && tableName == table
      ensures schema == columns && keyColumns == []
    {
      datasourceName, sourceName, tableName := name, source, table;
      schema, keyColumns := columns, [];
    }

    /** The schema HashSet, filled column by column. */
    static method CollectColumns(cols: seq<string>) returns (s: set<string>)
      ensures s == ColumnSet(cols)
    {
      s := {};
      for i := 0 to |cols|
        invariant s == ColumnSet(cols[..i])
      {
        assert cols[..i + 1] == cols[..i] + [cols[i]];
        s := s + {cols[i]};
      }
      assert cols[..|cols|] == cols;
    }

    /** `parseKey`: collects the section's columns, stopping at the first
        one that is not in the schema or already collected; only an
        accepted section replaces the key columns. */
    method ParseKey(section: seq<string>) returns (err: Option<ConfigError>)
      modifies this`keyColumns
      ensures ValidateKey(schema, section).Success? ==> err.None? && keyColumns == section
      ensures ValidateKey(schema, section).Failure? ==> err == Some(ValidateKey(schema, section).error)
      ensures ValidateKey(schema, section).Failure? ==> keyColumns == old(keyColumns)
    {
      var columns: seq<string> := [];
      var i := 0;
      while i < |section|
        invariant 0 <= i <= |section|
        invariant ValidateKey(schema, section[..i]) == Success(columns)
        invariant keyColumns == old(keyColumns)
      {
        var column := section[i];
        ValidateKeyStep(schema, section, i, columns);
        if column !in schema {
          ValidateKeyFailureSticks(schema, section, i + 1);
          return Some(KeyNotInSchema(column));
        }
        if column in columns {
          ValidateKeyFailureSticks(schema, section, i + 1);
          return Some(DuplicateKey(column));
        }
        columns := columns + [column];
        i := i + 1;
      }
      assert section[..i] == section;
      keyColumns := columns;
      return None;
    }

    /** The constructor's checks in their order: NAME, SOURCE, TABLE, then
        the explicit schema with its `Schluessel` section, or the schema and
        key read from the database, where every rejection is rewrapped. */
    static method Create(conf: Config, db: Introspection) returns (r: Result<OOoDatasource, ConfigError>)
      ensures r.Failure? ==> Resolve(conf, db) == Failure(r.error)
      ensures r.Success? ==> fresh(r.value) && Resolve(conf, db) == Success(r.value.CurrentSettings())
    {
      if conf.name.None? { return Failure(MissingName); }
      if conf.source.None? { return Failure(MissingSource); }
      if conf.table.None? { return Failure(MissingTable); }
      var name, source, table := conf.name.value, conf.source.value, conf.table.value;
      if conf.schemaSection.Some? {
        var columns := CollectColumns(conf.schemaSection.value);
        if |columns| == 0 { return Failure(EmptySchema); }
        if conf.keySection.None? { return Failure(MissingKeySection); }
        var ds := new OOoDatasource(name, source, table, columns);
        var err := ds.ParseKey(conf.keySection.value);
        if err.Some? { return Failure(err.value); }
        return Success(ds);
      }
      if db.Unreachable? { return Failure(SchemaUnreadable(None)); }
      var columns := CollectColumns(db.columns);
      if |columns| == 0 { return Failure(SchemaUnreadable(Some(TableHasNoColumns))); }
      var ds := new OOoDatasource(name, source, table, columns);
      if conf.keySection.Some? {
        var err := ds.ParseKey(conf.keySection.value);
        if err.Some? { return Failure(SchemaUnreadable(err)); }
      } else if db.primaryKey.None? {
        return Failure(SchemaUnreadable(None));
      } else {
        ds.keyColumns := db.primaryKey.value;
      }
      if |ds.keyColumns| == 0 { return Failure(NoKeyColumns); }
      return Success(ds);
    }

    /** The data map of one row: each schema column's value from its
        position in the result set, None where the position is not positive;
        None overall when a position lies beyond the row. */
    method ReadRow(rs: ResultSet, row: seq<Option<string>>) returns (r: Option<map<string, Option<string>>>)
      ensures r == RowData(schema, rs, row)
    {
      var data: map<string, Option<string>> := map[];
      var todo := schema;
      while todo != {}
        invariant todo <= schema
        invariant data.Keys == schema - todo
        invariant forall c :: c in data ==> ColumnIndex(rs, c) <= |row| && data[c] == Cell(rs, row, c)
        decreases |todo|
      {
        var column :| column in todo;
        var idx := ColumnIndex(rs, column);
        var value: Option<string> := None;
        if idx > 0 {
          if idx > |row| { return None; }
          value := row[idx - 1];
        }
        data := data[column := value];
        todo := todo - {column};
      }
      RowDataIs(schema, rs, row, data);
      return Some(data);
    }

    /** `sqlQuery(query, timeout, hard)` with the clock readings from
        `now(start)` on: the deadline check at entry, the connection, the
        statement, then one dataset per row with a deadline check after
        each, which throws (hard) or stops (soft). */
    method SqlQuery(backend: Backend, query: string, timeout: int, hard: bool, now: nat -> int, start: nat)
      returns (r: Result<seq<Dataset>, QueryError>)
      ensures r == QueryOutcome(schema, keyColumns, backend, query, timeout, hard, now, start)
    {
      var endTime := now(start) + timeout;
      if now(start + 1) > endTime {
        if hard { return Failure(DeadlineExceeded); }
        return Success([]);
      }
      if !backend.connect(LoginTimeout(timeout)) { return Failure(NoConnection); }
      var results := backend.execute(query);
      if results.None? { return Failure(QueryFailed(None)); }
      var rs := results.value;
      ghost var whole := Collected(schema, keyColumns, rs, now, start + 2, endTime, hard, 0);
      var datasets: seq<Dataset> := [];
      PrependNothing(whole);
      var k := 0;
      while k < |rs.rows|
        invariant 0 <= k <= |rs.rows|
        invariant whole == Prepend(datasets, Collected(schema, keyColumns, rs, now, start + 2, endTime, hard, k))
      {
        var data := ReadRow(rs, rs.rows[k]);
        if data.None? { return Failure(QueryFailed(None)); }
        var key := InitKey(keyColumns, data.value);
        var d := Dataset(data.value, key);
        assert d == MakeDataset(keyColumns, data.value);
        ghost var before := datasets;
        datasets := datasets + [d];
        if now(start + 2 + k) > endTime {
          if hard { return Failure(QueryFailed(Some(DeadlineExceeded))); }
          return Success(datasets);
        }
        PrependStep(before, [d], Collected(schema, keyColumns, rs, now, start + 2, endTime, hard, k + 1));
        k := k + 1;
      }
      assert datasets + [] == datasets;
      return Success(datasets);
    }

    /** `getDatasetsByKey`: the deadline from the first clock reading, the
        statement (a key that does not decode aborts it), then the time
        left, at least 1 ms, for a hard query with the readings from the
        third on. */
    method GetDatasetsByKey(keys: seq<string>, timeout: int, backend: Backend, now: nat -> int)
      returns (r: Result<seq<Dataset>, QueryError>)
      ensures KeyQuery(tableName, keys).None? ==> r == Failure(MalformedKey)
      ensures KeyQuery(tableName, keys).Some? ==>
                var left := now(0) + timeout - now(1);
                r == QueryOutcome(schema, keyColumns, backend, KeyQuery(tableName, keys).value,
                                  if left < 1 then 1 else left, true, now, 2)
    {
      var endTime := now(0) + timeout;
      var text := KeyQueryText(tableName, keys);
      if text.None? { return Failure(MalformedKey); }
      var left := endTime - now(1);
      if left < 1 { left := 1; }
      r := SqlQuery(backend, text.value, left, true, now, 2);
    }

    /** `find`: nothing to look for yields nothing without a query;
        otherwise a hard query with the predicates. */
    method Find(parts: seq<QueryPart>, timeout: int, backend: Backend, now: nat -> int)
      returns (r: Result<seq<Dataset>, QueryError>)
      ensures parts == [] ==> r == Success([])
      ensures parts != [] ==>
                r == QueryOutcome(schema, keyColumns, backend, FindQuery(tableName, parts).value, timeout, true, now, 0)
    {
      if parts == [] { return Success([]); }
      var text := FindQueryText(tableName, parts);
      r := SqlQuery(backend, text.value, timeout, true, now, 0);
    }

    /** `getContents`: the whole table as a soft query, which never fails
        because of the deadline. */
    method GetContents(timeout: int, backend: Backend, now: nat -> int)
      returns (r: Result<seq<Dataset>, QueryError>)
      ensures r == QueryOutcome(schema, keyColumns, backend, ContentsQuery(tableName), timeout, false, now, 0)
      ensures r.Failure? ==> r.error in {NoConnection, QueryFailed(None)}
    {
      r := SqlQuery(backend, ContentsQuery(tableName), timeout, false, now, 0);
      if r.Failure? {
        SoftQueryErrors(schema, keyColumns, backend, ContentsQuery(tableName), timeout, now, 0);
      }
    }
  }

  /** A map with the schema as keys and the row's values is the row's data. */
  lemma RowDataIs(schema: set<string>, rs: ResultSet, row: seq<Option<string>>, data: map<string, Option<string>>)
    requires data.Keys == schema
    requires forall c :: c in data ==> ColumnIndex(rs, c) <= |row| && data[c] == Cell(rs, row, c)
    ensures RowData(schema, rs, row) == Some(data)
  {
    assert Readable(schema, rs, row);
    var m := map c | c in schema :: Cell(rs, row, c);
    assert m == data by {
      assert m.Keys == data.Keys;
      forall c | c in m
        ensures m[c] == data[c]
      {
      }
    }
  }

  /** Nothing collected yet. */
  lemma PrependNothing(r: Result<seq<Dataset>, QueryError>)
    ensures Prepend([], r) == r
  {
    if r.Success? {
      assert [] + r.value == r.value;
    }
  }

  /** Adding a dataset to those collected moves it out of the rest. */
  lemma PrependStep(ds: seq<Dataset>, d: seq<Dataset>, more: Result<seq<Dataset>, QueryError>)
    ensures Prepend(ds, Prepend(d, more)) == Prepend(ds + d, more)
  {
    if more.Success? {
      assert ds + (d + more.value) == (ds + d) + more.value;
    }
  }
}
