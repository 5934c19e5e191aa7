/** What the OOoDatasource constructor makes of its configuration: the
    schema (the set of column names) and the key columns, taken from the
    `Schema` and `Schluessel` sections or read from the database, and the
    checks that reject an inconsistent definition. */
module Schema {
  import opened Outcomes

  /** The parts of a `Datenquelle` section the constructor reads. A section
      that is absent is None; `Schema` and `Schluessel` hold the children of
      the first section of that name. */
  datatype Config = Config(
    name: Option<string>,
    source: Option<string>,
    table: Option<string>,
    schemaSection: Option<seq<string>>,
    keySection: Option<seq<string>>)

  /** What asking the database about the table yields: Unreachable when the
      data source is not registered, the connection fails or the table does
      not exist; otherwise the table's columns and its first key's columns
      (None when the table has no key to read). */
  datatype Introspection =
    | Unreachable
    | Table(columns: seq<string>, primaryKey: Option<seq<string>>)

  /** The ConfigurationErrorException cases, by the situation each message describes. */
  datatype ConfigError =
    | MissingName
    | MissingSource
    | MissingTable
    | EmptySchema
    | MissingKeySection
    | KeyNotInSchema(column: string)
    | DuplicateKey(column: string)
    | TableHasNoColumns
    | SchemaUnreadable(cause: Option<ConfigError>)
    | NoKeyColumns

  /** A definition that passed every check. */
  datatype Settings = Settings(
    datasourceName: string,
    sourceName: string,
    tableName: string,
    schema: set<string>,
    keyColumns: seq<string>)

  /** The schema HashSet filled from a list of column names. */
  function ColumnSet(cols: seq<string>): (s: set<string>)
    ensures forall c :: c in s <==> c in cols
    ensures |s| == 0 <==> |cols| == 0
  {
    var s := set c | c in cols;
    assert |cols| > 0 ==> cols[0] in s;
    s
  }

  /** No column occurs twice. */
  predicate Distinct(cols: seq<string>)
  {
    forall i, j :: 0 <= i < j < |cols| ==> cols[i] != cols[j]
  }

  /** `parseKey`: the columns of the section in their order; the first
      column, in that order, that is not in the schema or that already
      occurred rejects the section. An empty section is accepted. */
  function ValidateKey(schema: set<string>, section: seq<string>): (r: Result<seq<string>, ConfigError>)
    ensures r.Success? ==> r.value == section
    ensures r.Failure? ==> r.error.KeyNotInSchema? || r.error.DuplicateKey?
  {
    if section == [] then Success([])
    else
      var c := section[|section| - 1];
      match ValidateKey(schema, section[..|section| - 1])
      case Failure(e) => Failure(e)
      case Success(cols) =>
        if c !in schema then Failure(KeyNotInSchema(c))
        else if c in cols then Failure(DuplicateKey(c))
        else Success(cols + [c])
  }

  /** A section is accepted exactly when its columns are in the schema and
      none is repeated. */
  lemma {:induction false} ValidateKeyAccepts(schema: set<string>, section: seq<string>)
    ensures ValidateKey(schema, section).Success?
        <==> (forall c :: c in section ==> c in schema) && Distinct(section)
  {
    if section != [] {
      var init, c := section[..|section| - 1], section[|section| - 1];
      ValidateKeyAccepts(schema, init);
      assert section == init + [c];
      assert forall x :: x in section <==> x in init || x == c;
      if Distinct(section) {
        assert forall i, j :: 0 <= i < j < |init| ==> init[i] == section[i] && init[j] == section[j];
      }
      if ValidateKey(schema, init).Success? && c in schema && c !in init {
        assert Distinct(init);
        assert Distinct(section) by {
          forall i, j | 0 <= i < j < |section|
            ensures section[i] != section[j]
          {
            if j < |init| {
              assert section[i] == init[i] && section[j] == init[j];
            } else {
              assert section[i] == init[i];
            }
          }
        }
      }
    }
  }

  /** The column a rejection names is the offending one: one that is not
      in the schema, or one that occurs twice in the section. */
  lemma {:induction false} ValidateKeyNamesOffender(schema: set<string>, section: seq<string>)
    requires ValidateKey(schema, section).Failure?
    ensures var e := ValidateKey(schema, section).error;
            (e.KeyNotInSchema? && e.column in section && e.column !in schema) ||
            (e.DuplicateKey? && e.column in schema &&
              exists i, j :: 0 <= i < j < |section| && section[i] == e.column && section[j] == e.column)
  {
    var init, c := section[..|section| - 1], section[|section| - 1];
    assert section == init + [c];
    if ValidateKey(schema, init).Failure? {
      ValidateKeyNamesOffender(schema, init);
      var e := ValidateKey(schema, init).error;
      if e.DuplicateKey? {
        var i, j :| 0 <= i < j < |init| && init[i] == e.column && init[j] == e.column;
        assert section[i] == e.column && section[j] == e.column;
      }
    } else if c in schema {
      var i :| 0 <= i < |init| && init[i] == c;
      assert section[i] == c && section[|section| - 1] == c;
    }
  }

  /** Once a prefix of the section is rejected, the whole section is
      rejected for the same column: later columns are never looked at. */
  lemma {:induction false} ValidateKeyFailureSticks(schema: set<string>, section: seq<string>, i: nat)
    requires i <= |section|
    requires ValidateKey(schema, section[..i]).Failure?
    ensures ValidateKey(schema, section) == ValidateKey(schema, section[..i])
    decreases |section| - i
  {
    if i < |section| {
      var next := section[..i + 1];
      assert next[..|next| - 1] == section[..i];
      ValidateKeyFailureSticks(schema, section, i + 1);
    } else {
      assert section[..i] == section;
    }
  }

  /** One more column after an accepted prefix: rejected when it is not in
      the schema or already among the accepted ones, otherwise appended. */
  lemma ValidateKeyStep(schema: set<string>, section: seq<string>, i: nat, cols: seq<string>)
    requires i < |section| && ValidateKey(schema, section[..i]) == Success(cols)
    ensures ValidateKey(schema, section[..i + 1]) ==
              if section[i] !in schema then Failure(KeyNotInSchema(section[i]))
              else if section[i] in cols then Failure(DuplicateKey(section[i]))
              else Success(cols + [section[i]])
  {
    var next := section[..i + 1];
    assert next[..|next| - 1] == section[..i];
  }

  /** The key columns: from `Schluessel` if present (rejections wrapped,
      as the catch in the constructor does), otherwise the table's first key. */
  function IntrospectedKey(schema: set<string>, keySection: Option<seq<string>>, primaryKey: Option<seq<string>>)
    : (r: Result<seq<string>, ConfigError>)
    ensures r.Failure? ==> r.error.SchemaUnreadable?
  {
    match keySection
    case Some(section) =>
      (match ValidateKey(schema, section)
       case Failure(e) => Failure(SchemaUnreadable(Some(e)))
       case Success(cols) => Success(cols))
    case None =>
      (match primaryKey
       case None => Failure(SchemaUnreadable(None))
       case Some(cols) => Success(cols))
  }

  /** The constructor: NAME, SOURCE and TABLE in that order, then either
      the explicit schema with its mandatory `Schluessel` section, or the
      schema read from the database. Every failure inside the reading of
      the database (an empty table, a rejected `Schluessel` section, a
      missing key) is reported as SchemaUnreadable carrying the cause; a
      key that is empty after all is rejected on that path only. */
  function Resolve(conf: Config, db: Introspection): Result<Settings, ConfigError>
  {
    if conf.name.None? then Failure(MissingName)
    else if conf.source.None? then Failure(MissingSource)
    else if conf.table.None? then Failure(MissingTable)
    else
      var name, source, table := conf.name.value, conf.source.value, conf.table.value;
      match conf.schemaSection
      case Some(cols) =>
        var schema := ColumnSet(cols);
        if |schema| == 0 then Failure(EmptySchema)
        else if conf.keySection.None? then Failure(MissingKeySection)
        else
          (match ValidateKey(schema, conf.keySection.value)
           case Failure(e) => Failure(e)
           case Success(key) => Success(Settings(name, source, table, schema, key)))
      case None =>
        match db
        case Unreachable => Failure(SchemaUnreadable(None))
        case Table(columns, primaryKey) =>
          var schema := ColumnSet(columns);
          if |schema| == 0 then Failure(SchemaUnreadable(Some(TableHasNoColumns)))
          else
            match IntrospectedKey(schema, conf.keySection, primaryKey)
            case Failure(e) => Failure(e)
            case Success(key) =>
              if |key| == 0 then Failure(NoKeyColumns)
              else Success(Settings(name, source, table, schema, key))
  }

  /** With an explicit `Schema` section the database is never consulted. */
  lemma ExplicitSchemaIgnoresDatabase(conf: Config, db1: Introspection, db2: Introspection)
    requires conf.schemaSection.Some?
    ensures Resolve(conf, db1) == Resolve(conf, db2)
  {
  }

  /** What an accepted definition with an explicit `Schema` section holds:
      the schema is the section's columns and not empty, and the key columns
      are the `Schluessel` section in its order, all in the schema, none
      twice; the key may be empty. */
  lemma ExplicitSchemaResolved(conf: Config, db: Introspection)
    requires conf.schemaSection.Some? && Resolve(conf, db).Success?
    ensures var s := Resolve(conf, db).value;
            s.datasourceName == conf.name.value && s.sourceName == conf.source.value &&
            s.tableName == conf.table.value &&
            s.schema == ColumnSet(conf.schemaSection.value) && |s.schema| > 0 &&
            conf.keySection == Some(s.keyColumns) &&
            (forall c :: c in s.keyColumns ==> c in s.schema) && Distinct(s.keyColumns)
  {
    ValidateKeyAccepts(ColumnSet(conf.schemaSection.value), conf.keySection.value);
  }

  /** An explicit `Schema` section that names no column, or one without a
      `Schluessel` section, is rejected. */
  lemma ExplicitSchemaRejected(conf: Config, db: Introspection)
    requires conf.name.Some? && conf.source.Some? && conf.table.Some?
    requires conf.schemaSection.Some?
    ensures conf.schemaSection.value == [] ==> Resolve(conf, db) == Failure(EmptySchema)
    ensures conf.schemaSection.value != [] && conf.keySection.None? ==> Resolve(conf, db) == Failure(MissingKeySection)
  {
  }

  /** An empty `Schluessel` section next to an explicit schema is accepted
      and leaves the data source without key columns. */
  lemma EmptyExplicitKeyAccepted(conf: Config, db: Introspection)
    requires conf.name.Some? && conf.source.Some? && conf.table.Some?
    requires conf.schemaSection.Some? && conf.schemaSection.value != []
    requires conf.keySection == Some([])
    ensures Resolve(conf, db).Success? && Resolve(conf, db).value.keyColumns == []
  {
  }

  /** What an accepted definition without `Schema` section holds: the
      schema is the table's columns, not empty; the key columns are not
      empty and are either the `Schluessel` section (all in the schema,
      none twice) or the table's key. */
  lemma IntrospectedSchemaResolved(conf: Config, db: Introspection)
    requires conf.schemaSection.None? && Resolve(conf, db).Success?
    ensures db.Table?
    ensures var s := Resolve(conf, db).value;
            s.schema == ColumnSet(db.columns) && |s.schema| > 0 && |s.keyColumns| > 0 &&
            (conf.keySection.Some? ==>
               conf.keySection == Some(s.keyColumns) &&
               (forall c :: c in s.keyColumns ==> c in s.schema) && Distinct(s.keyColumns)) &&
            (conf.keySection.None? ==> db.primaryKey == Some(s.keyColumns))
  {
    if conf.keySection.Some? {
      ValidateKeyAccepts(ColumnSet(db.columns), conf.keySection.value);
    }
  }

  /** Without `Schema` section, every failure after NAME, SOURCE and TABLE
      is SchemaUnreadable, except a key that comes out empty. */
  lemma IntrospectionErrors(conf: Config, db: Introspection)
    requires conf.name.Some? && conf.source.Some? && conf.table.Some?
    requires conf.schemaSection.None? && Resolve(conf, db).Failure?
    ensures Resolve(conf, db).error.SchemaUnreadable? || Resolve(conf, db).error == NoKeyColumns
  {
  }
}
