# OOoDatasource: keys, SQL text and the query loop, verified in Dafny

This project models the part of WollMux's `OOoDatasource` that works on
strings and decides outcomes. This data source answers lookups by row key,
searches and full listings against a table of an OpenOffice.org database.
The model has four parts:

- **Key codec** (module `KeyCodec`). `encode` escapes `%` as `%%` and `#`
  as `%r`. `decode` undoes this by editing a buffer in place.
- **Row keys** (module `RowKey`). `initKey` builds the key of a dataset from
  its key columns: `encode(column)#encode(value)#` for each column that has
  a value. `getDatasetsByKey` splits such a key on `#` and decodes it
  back into column/value pairs. `get` reads one column of a dataset.
- **SQL text** (modules `SqlText` and `Queries`). `sqlLiteral` and
  `sqlIdentifier` quote text. `sqlSearchPattern` turns a `*` wildcard into a
  LIKE pattern. The statements of `getDatasetsByKey`, `find` and
  `getContents` are built from these. Each statement has a reader that
  parses it back the way SQL does, and lemmas show it yields what the
  statement was built from.
- **Configuration and queries** (modules `Schema`, `Executor` and
  `Datasource`). `Datasource.OOoDatasource` is a class with the fields of
  the Java object. Its constructor checks are in `Create`, `parseKey` is
  `ParseKey`, and the three query methods and `sqlQuery` are methods.
  `sqlQuery` checks its deadline at entry and after every row, then either
  throws (hard) or stops (soft).

Code that builds strings or changes state step by step is modelled as
methods with loops: `decode`, `initKey`, both loops of `getDatasetsByKey`,
`find`, `parseKey`, the filling of the schema set, the row loop of
`sqlQuery` and the reading of one row. Each method is proved equal to a
function. The properties are proved as lemmas about those functions. The
single-expression helpers (`encode`, `sqlLiteral`, `sqlIdentifier`,
`sqlSearchPattern`) are functions.

The database and the clock are parameters:

- `Executor.Backend` answers whether a connection can be had for a given
  login timeout, and what a statement returns. A statement either fails
  (None) or gives an `Executor.ResultSet`: the positions `findColumn`
  reports, and the rows.
- The clock is a function `now: nat -> int` giving the value of the n-th
  call to `System.currentTimeMillis`. `getDatasetsByKey` makes the calls
  numbered 0 and 1, then runs `sqlQuery` from call 2. `find` and
  `getContents` run `sqlQuery` from call 0. `sqlQuery` makes two calls at
  entry and one after every row.

Several behaviours of the code are easy to misread. The model follows
the code in each of them:

- **`decode` on `%x`.** For `x` other than `r`, `decode` deletes `x` and
  keeps the `%`. On `%%` the result is `%` either way. A `%` at the very
  end makes `charAt` throw, so `decode` yields None. `getDatasetsByKey`
  then fails with `MalformedKey`, and no precondition is needed.
- **`getDatasetsByKey` without keys.** It sends `SELECT * FROM "t" WHERE ;`
  rather than answering with nothing (`Queries.NoKeysQuery`).
- **`getContents` is soft.** It passes `false` to `sqlQuery`, so the
  deadline never makes it fail.
- **Soft queries can still fail.** The Javadoc of `sqlQuery`
  (OOoDatasource.java:290-298) describes `throwOnTimeout = false` as
  returning the incomplete list. Still, a connection that cannot be made,
  or an exception while running the statement, is a TimeoutException even
  for a soft query (`Executor.SoftQueryErrors`).
- **Empty key without introspection.** With an explicit `Schema` section,
  an empty `Schluessel` section is accepted. The check for an empty key
  runs only when the schema is read from the database
  (`Schema.EmptyExplicitKeyAccepted`).
- **Wrapped introspection errors.** When the schema is read from the
  database, every configuration error raised inside that `try` is
  rethrown as "schema unreadable" with the error as its cause. This
  covers a table without columns and a rejected `Schluessel` section.

## Model

| member | source | states |
|---|---|---|
| KeyCodec.Encode | src/de/muenchen/allg/itd51/wollmux/db/OOoDatasource.java:468-471 | `encode` as the two replacements in their order; its properties are the `KeyCodec` lemmas below, with `DecodeEncode` as its inverse |
| KeyCodec.EncodeHasNoMarker | src/de/muenchen/allg/itd51/wollmux/db/OOoDatasource.java:468-471 | no `#` survives `encode` |
| KeyCodec.EncodeWellEscaped | src/de/muenchen/allg/itd51/wollmux/db/OOoDatasource.java:468-471 | every `%` in an encoded string opens `%%` or `%r`, and there is no `#` |
| KeyCodec.EncodeCons | src/de/muenchen/allg/itd51/wollmux/db/OOoDatasource.java:470 | the two replacements work character by character: `%` becomes `%%`, `#` becomes `%r`, others stay |
| KeyCodec.DecodeEncode | src/de/muenchen/allg/itd51/wollmux/db/OOoDatasource.java:468-486 | `decode(encode(s)) == s` for every string |
| KeyCodec.EncodeDecode | src/de/muenchen/allg/itd51/wollmux/db/OOoDatasource.java:468-486 | every well-escaped string decodes, and encoding the result gives it back, so well-escaped is exactly the image of `encode` |
| KeyCodec.EncodeInjective | src/de/muenchen/allg/itd51/wollmux/db/OOoDatasource.java:468-471 | different strings have different encodings |
| KeyCodec.TrailingMarkerFails | src/de/muenchen/allg/itd51/wollmux/db/OOoDatasource.java:477-480 | a well-escaped text followed by a lone `%` does not decode (`charAt` past the end) |
| KeyCodec.Decode | src/de/muenchen/allg/itd51/wollmux/db/OOoDatasource.java:473-486 | the in-place loop over the buffer yields the left-to-right reading `Decoded` of the string's characters, None where it throws |
| SqlText.SqlLiteral | src/de/muenchen/allg/itd51/wollmux/db/OOoDatasource.java:392-395 | the literal starts and ends with an apostrophe |
| SqlText.SqlIdentifier | src/de/muenchen/allg/itd51/wollmux/db/OOoDatasource.java:402-405 | the identifier starts and ends with a double quote |
| SqlText.QuoteReadsBack | src/de/muenchen/allg/itd51/wollmux/db/OOoDatasource.java:392-405 | SQL reads a quoted token back as exactly the original text, with every doubled delimiter undone, and stops right after it |
| SqlText.SqlLiteralReadsBack | src/de/muenchen/allg/itd51/wollmux/db/OOoDatasource.java:392-395 | `sqlLiteral(s)` reads back as `s` |
| SqlText.SqlIdentifierReadsBack | src/de/muenchen/allg/itd51/wollmux/db/OOoDatasource.java:402-405 | `sqlIdentifier(s)` reads back as `s` |
| SqlText.SqlSearchPattern | src/de/muenchen/allg/itd51/wollmux/db/OOoDatasource.java:411-414 | `sqlSearchPattern` as the four replacements in their order; its meaning is `SearchPatternTokens` and `SearchPatternWildcards` |
| SqlText.SearchPatternCons | src/de/muenchen/allg/itd51/wollmux/db/OOoDatasource.java:411-414 | the replacement chain maps each character on its own: `\` to `\\`, `_` to `\_`, `%` to `\%`, `*` to `%` |
| SqlText.SearchPatternHasNoStar | src/de/muenchen/allg/itd51/wollmux/db/OOoDatasource.java:411-414 | no `*` is left in the pattern |
| SqlText.SearchPatternTokens | src/de/muenchen/allg/itd51/wollmux/db/OOoDatasource.java:411-414 | read with `ESCAPE '\'`, the pattern means exactly the search string with `*` as the only wildcard |
| SqlText.SearchPatternWildcards | src/de/muenchen/allg/itd51/wollmux/db/OOoDatasource.java:411-414 | the pattern has no unescaped `_`, and its unescaped `%` stand exactly where the search string has `*` |
| SqlText.LiteralSearchMatchesOnlyItself | src/de/muenchen/allg/itd51/wollmux/db/OOoDatasource.java:411-414 | a search string without `*` matches only itself, whatever `%`, `_` or `\` it holds |
| SqlText.LowerSearchPattern | src/de/muenchen/allg/itd51/wollmux/db/OOoDatasource.java:269-274 | lower-casing the pattern equals translating the lower-cased search string |
| SqlText.FindPredicateMeaning | src/de/muenchen/allg/itd51/wollmux/db/OOoDatasource.java:269-275 | with both sides lower-cased, the LIKE pattern means the lower-cased search string with `*` as wildcard |
| RowKey.PresentPairsMeaning | src/de/muenchen/allg/itd51/wollmux/db/OOoDatasource.java:440-450 | the pairs in a key are the key columns that have a value, with that value, and no more than there are key columns |
| RowKey.PresentPairsInOrder | src/de/muenchen/allg/itd51/wollmux/db/OOoDatasource.java:440-450 | the pairs follow the key columns in order, one for each column with a value and none for the others |
| RowKey.InitKey | src/de/muenchen/allg/itd51/wollmux/db/OOoDatasource.java:437-453 | the loop builds `encode(c)#encode(v)#` for each key column with a value, in order, and skips null columns |
| Text.Split | src/de/muenchen/allg/itd51/wollmux/db/OOoDatasource.java:236 | Java's `split("#", -1)`: at least one field, none holding the separator, empty fields kept |
| Text.SplitJoin | src/de/muenchen/allg/itd51/wollmux/db/OOoDatasource.java:236 | splitting fields joined with the separator gives the fields back |
| Text.JoinSplit | src/de/muenchen/allg/itd51/wollmux/db/OOoDatasource.java:236 | joining the fields of a split with the separator gives the text back |
| RowKey.DecodedPairs | src/de/muenchen/allg/itd51/wollmux/db/OOoDatasource.java:238-244 | decodes fields `i-1` and `i` for odd `i` below the field count, None where `decode` throws; stated by `MalformedPair`, `DecodedPairsDone` and `KeyRoundTrip` |
| RowKey.KeyPairs | src/de/muenchen/allg/itd51/wollmux/db/OOoDatasource.java:236-244 | the split and decode of one key; `KeyRoundTrip` makes it the inverse of `KeyText` |
| RowKey.SplitKeyText | src/de/muenchen/allg/itd51/wollmux/db/OOoDatasource.java:236 | splitting a key on `#`, keeping empty fields, gives the encoded fields and one trailing empty field |
| RowKey.KeyRoundTrip | src/de/muenchen/allg/itd51/wollmux/db/OOoDatasource.java:236-244 | splitting a key and decoding fields `i-1` and `i` for odd `i` gives back exactly the pairs that built it, in order |
| RowKey.RowKeyRoundTrip | src/de/muenchen/allg/itd51/wollmux/db/OOoDatasource.java:437-453 | a dataset's key decodes to its non-null key columns and their values |
| RowKey.KeyInjective | src/de/muenchen/allg/itd51/wollmux/db/OOoDatasource.java:437-453 | different pair sequences give different keys |
| RowKey.RowKeyInjective | src/de/muenchen/allg/itd51/wollmux/db/OOoDatasource.java:437-453 | two datasets share a key only if they agree on every key column |
| RowKey.MalformedPair | src/de/muenchen/allg/itd51/wollmux/db/OOoDatasource.java:238-244 | a pair field that does not decode makes the whole key fail |
| RowKey.DecodedPairsDone | src/de/muenchen/allg/itd51/wollmux/db/OOoDatasource.java:238 | an unpaired last field is ignored |
| RowKey.Get | src/de/muenchen/allg/itd51/wollmux/db/OOoDatasource.java:455-459 | ColumnNotFound exactly for a column outside the schema; otherwise the dataset's value, null for a missing one |
| Executor.GetCell | src/de/muenchen/allg/itd51/wollmux/db/OOoDatasource.java:455-459 | `get` on a dataset made from a row gives the cell of a schema column and rejects every other column |
| Queries.PairLists | src/de/muenchen/allg/itd51/wollmux/db/OOoDatasource.java:229-246 | the keys' pairs exist exactly when every key decodes, one list per key in order |
| Queries.MalformedKey | src/de/muenchen/allg/itd51/wollmux/db/OOoDatasource.java:241-243 | one key that does not decode means no statement is sent |
| Queries.EqualityReadsBack | src/de/muenchen/allg/itd51/wollmux/db/OOoDatasource.java:241-243 | `"column"='value'` reads back as the pair |
| Queries.ConjunctionReadsBack | src/de/muenchen/allg/itd51/wollmux/db/OOoDatasource.java:238-244 | the conditions of one key joined with ` AND ` read back as its pairs, in order |
| Queries.KeyClauseReadsBack | src/de/muenchen/allg/itd51/wollmux/db/OOoDatasource.java:237-245 | a parenthesised key condition reads back as its pairs, `()` as none |
| Queries.DisjunctionReadsBack | src/de/muenchen/allg/itd51/wollmux/db/OOoDatasource.java:229-248 | the key conditions joined with ` OR ` and closed by `;` read back as the pair lists, in order |
| Queries.KeyQuery | src/de/muenchen/allg/itd51/wollmux/db/OOoDatasource.java:227-248 | a statement is built exactly when every key decodes; `KeyQueryReadsBack` gives its meaning |
| Queries.KeyQueryReadsBack | src/de/muenchen/allg/itd51/wollmux/db/OOoDatasource.java:224-248 | the key lookup names the table and asks, key by key, for exactly the decoded pairs |
| Queries.RowKeysLookup | src/de/muenchen/allg/itd51/wollmux/db/OOoDatasource.java:224-248 | looking up the keys of datasets asks, dataset by dataset, for their non-null key columns with their values |
| Queries.NoKeysQuery | src/de/muenchen/allg/itd51/wollmux/db/OOoDatasource.java:227-248 | without keys the statement is `SELECT * FROM "t" WHERE ;` |
| Queries.AppendKeyClause | src/de/muenchen/allg/itd51/wollmux/db/OOoDatasource.java:236-245 | the inner loop appends the parenthesised condition of the key's pairs, or fails where `decode` throws |
| Queries.KeyQueryText | src/de/muenchen/allg/itd51/wollmux/db/OOoDatasource.java:227-248 | the outer loop with its `first` flag builds exactly the key lookup statement |
| Queries.FindQuery | src/de/muenchen/allg/itd51/wollmux/db/OOoDatasource.java:255-259 | a `find` statement exists exactly when the query is not empty |
| Queries.FindPredicateReadsBack | src/de/muenchen/allg/itd51/wollmux/db/OOoDatasource.java:268-277 | a `find` predicate reads back as its column and the translated pattern |
| Queries.FindQueryPatterns | src/de/muenchen/allg/itd51/wollmux/db/OOoDatasource.java:259-280 | a `find` statement reads back as the table and, part by part, the column and translated pattern |
| Queries.FindQueryReadsBack | src/de/muenchen/allg/itd51/wollmux/db/OOoDatasource.java:255-280 | a `find` statement names the table and, in order, each part's column and a pattern that, lower-cased, means the lower-cased search string |
| Queries.AppendFindPredicate | src/de/muenchen/allg/itd51/wollmux/db/OOoDatasource.java:268-277 | the appends for one part make up its predicate |
| Queries.AppendFindPredicates | src/de/muenchen/allg/itd51/wollmux/db/OOoDatasource.java:261-278 | the loop with its `first` flag appends the predicates joined with ` AND ` |
| Queries.FindQueryText | src/de/muenchen/allg/itd51/wollmux/db/OOoDatasource.java:257-280 | nothing is built for an empty query; otherwise exactly the `find` statement |
| Queries.ContentsQuery | src/de/muenchen/allg/itd51/wollmux/db/OOoDatasource.java:287 | the listing statement; its meaning is `ContentsQueryReadsBack` |
| Queries.ContentsQueryReadsBack | src/de/muenchen/allg/itd51/wollmux/db/OOoDatasource.java:287 | the listing statement names the table and nothing else |
| Schema.Resolve | src/de/muenchen/allg/itd51/wollmux/db/OOoDatasource.java:109-191 | the constructor's outcome; stated by the `Schema` lemmas below, and `OOoDatasource.Create` is proved to agree with it |
| Schema.ColumnSet | src/de/muenchen/allg/itd51/wollmux/db/OOoDatasource.java:134-142 | the schema set holds exactly the listed columns and is empty only for an empty list |
| Schema.ValidateKey | src/de/muenchen/allg/itd51/wollmux/db/OOoDatasource.java:200-217 | an accepted section gives its columns unchanged and in order; a rejection is for a missing or a repeated column |
| Schema.ValidateKeyAccepts | src/de/muenchen/allg/itd51/wollmux/db/OOoDatasource.java:200-217 | a section is accepted exactly when all its columns are in the schema and none repeats; an empty section is accepted |
| Schema.ValidateKeyNamesOffender | src/de/muenchen/allg/itd51/wollmux/db/OOoDatasource.java:205-211 | the rejected column is outside the schema, or in it and listed twice |
| Schema.ValidateKeyFailureSticks | src/de/muenchen/allg/itd51/wollmux/db/OOoDatasource.java:205-211 | the first rejection ends the check; later columns are not looked at |
| Schema.IntrospectedKey | src/de/muenchen/allg/itd51/wollmux/db/OOoDatasource.java:170-187 | on the database path, key errors are reported as "schema unreadable" |
| Schema.ExplicitSchemaIgnoresDatabase | src/de/muenchen/allg/itd51/wollmux/db/OOoDatasource.java:136-149 | with a `Schema` section the database is never asked |
| Schema.ExplicitSchemaResolved | src/de/muenchen/allg/itd51/wollmux/db/OOoDatasource.java:134-149 | an accepted explicit definition has the section's columns as a non-empty schema and the `Schluessel` columns, in the schema and distinct, as key |
| Schema.ExplicitSchemaRejected | src/de/muenchen/allg/itd51/wollmux/db/OOoDatasource.java:143-146 | an empty `Schema` section or a missing `Schluessel` section is a configuration error |
| Schema.EmptyExplicitKeyAccepted | src/de/muenchen/allg/itd51/wollmux/db/OOoDatasource.java:144-148 | an empty `Schluessel` section next to an explicit schema is accepted, giving no key columns |
| Schema.IntrospectedSchemaResolved | src/de/muenchen/allg/itd51/wollmux/db/OOoDatasource.java:150-190 | an accepted definition without `Schema` has the table's columns and a non-empty key: the section if given (in the schema, distinct), else the table's first key |
| Schema.IntrospectionErrors | src/de/muenchen/allg/itd51/wollmux/db/OOoDatasource.java:150-190 | without `Schema`, every failure after NAME, SOURCE and TABLE is "schema unreadable", except an empty key |
| Executor.LoginTimeout | src/de/muenchen/allg/itd51/wollmux/db/OOoDatasource.java:318-320 | the login timeout is 1 for a timeout under one second, and otherwise the whole seconds of the timeout |
| Executor.Cell | src/de/muenchen/allg/itd51/wollmux/db/OOoDatasource.java:342-344 | a column whose position is not positive has no value |
| Executor.RowData | src/de/muenchen/allg/itd51/wollmux/db/OOoDatasource.java:336-346 | a row's data maps every schema column to its cell, and fails when a position lies beyond the row |
| Executor.Collected | src/de/muenchen/allg/itd51/wollmux/db/OOoDatasource.java:334-355 | the row loop from row `k` on; stated by `CollectedRows`, `SoftCollected`, `HardSoftCollected` and `HardCollectedErrors` |
| Executor.QueryOutcome | src/de/muenchen/allg/itd51/wollmux/db/OOoDatasource.java:300-361 | the outcome of `sqlQuery`; stated by `ResultIsPrefix`, `HardQueryIsComplete`, `SoftQueryErrors`, `SoftQueryTruncation`, `DeadlineAtEntry` and `HardSoftAgree` |
| Executor.CollectedRows | src/de/muenchen/allg/itd51/wollmux/db/OOoDatasource.java:334-355 | the loop's datasets are consecutive rows, each with that row's data and the key of that data |
| Executor.ResultIsPrefix | src/de/muenchen/allg/itd51/wollmux/db/OOoDatasource.java:300-361 | a successful query yields datasets for a prefix of the result rows, in order |
| Executor.HardQueryIsComplete | src/de/muenchen/allg/itd51/wollmux/db/OOoDatasource.java:348-351 | a successful hard query has every row and never saw the clock past the deadline |
| Executor.SoftCollected | src/de/muenchen/allg/itd51/wollmux/db/OOoDatasource.java:348-354 | the soft loop never fails for the deadline, and stops early only right after a row where it had passed |
| Executor.SoftCollectedChecks | src/de/muenchen/allg/itd51/wollmux/db/OOoDatasource.java:348-354 | the soft loop stops at the first check past the deadline: every check before its last dataset was within it |
| Executor.SoftQueryChecks | src/de/muenchen/allg/itd51/wollmux/db/OOoDatasource.java:307-354 | every clock reading a soft query made before yielding its last dataset, the one at entry included, was within the deadline; with `SoftQueryTruncation` this fixes the soft result |
| Executor.SoftQueryErrors | src/de/muenchen/allg/itd51/wollmux/db/OOoDatasource.java:300-361 | a soft query fails only for no connection or a failing statement or row |
| Executor.SoftQueryTruncation | src/de/muenchen/allg/itd51/wollmux/db/OOoDatasource.java:307-354 | a soft query that returns fewer datasets than rows found the deadline passed, at entry or after its last dataset |
| Executor.DeadlineAtEntry | src/de/muenchen/allg/itd51/wollmux/db/OOoDatasource.java:307-313 | a deadline already past at entry: hard throws, soft returns nothing, whatever the database |
| Executor.HardSoftCollected | src/de/muenchen/allg/itd51/wollmux/db/OOoDatasource.java:334-355 | the hard and soft loops agree until the deadline passes, and then soft has a non-empty prefix |
| Executor.HardCollectedErrors | src/de/muenchen/allg/itd51/wollmux/db/OOoDatasource.java:348-358 | the hard loop fails only for a failing row or for the deadline |
| Executor.HardSoftAgree | src/de/muenchen/allg/itd51/wollmux/db/OOoDatasource.java:300-361 | throwing or stopping matters only once the deadline has passed; other outcomes coincide |
| Datasource.OOoDatasource.constructor | src/de/muenchen/allg/itd51/wollmux/db/OOoDatasource.java:109-134 | the names and the schema are set, and the key columns are empty |
| Datasource.OOoDatasource.CollectColumns | src/de/muenchen/allg/itd51/wollmux/db/OOoDatasource.java:134-142 | the loop fills the schema set with exactly the listed columns |
| Datasource.OOoDatasource.ParseKey | src/de/muenchen/allg/itd51/wollmux/db/OOoDatasource.java:200-217 | the key columns become the section when it is accepted; a rejection reports the error and leaves them unchanged |
| Datasource.OOoDatasource.Create | src/de/muenchen/allg/itd51/wollmux/db/OOoDatasource.java:109-191 | the constructor's checks in their order: it fails exactly as `Resolve` does, or holds `Resolve`'s settings |
| Datasource.OOoDatasource.ReadRow | src/de/muenchen/allg/itd51/wollmux/db/OOoDatasource.java:336-346 | reading a row gives its data map, or fails where `getString` would throw |
| Datasource.OOoDatasource.SqlQuery | src/de/muenchen/allg/itd51/wollmux/db/OOoDatasource.java:300-361 | the deadline checks, connection, statement and row loop give exactly `QueryOutcome` |
| Datasource.OOoDatasource.GetDatasetsByKey | src/de/muenchen/allg/itd51/wollmux/db/OOoDatasource.java:224-253 | a malformed key is an error; otherwise a hard query with the key lookup and the time left, at least 1 ms |
| Datasource.OOoDatasource.Find | src/de/muenchen/allg/itd51/wollmux/db/OOoDatasource.java:255-282 | an empty query yields nothing and touches nothing; otherwise a hard query with the `find` statement |
| Datasource.OOoDatasource.GetContents | src/de/muenchen/allg/itd51/wollmux/db/OOoDatasource.java:285-289 | a soft query for the listing; it fails only for no connection or a failing statement or row, never for the deadline |

## Left out

- UNO database access (`getRegisteredObject`, `getConnection`,
  `executeQuery`, `findColumn`, table and key introspection). These are
  foreign calls. They appear only as what they answer: `Executor.Backend`,
  `Executor.ResultSet` and `Schema.Introspection`. Any exception there is
  one failure value.
- A null result set from `executeQuery` makes the row loop do nothing.
  A backend can express this as a result set without rows.
- `System.currentTimeMillis` is an explicit sequence of readings, `now`.
- `Executor.LoginTimeout`: does not model the overflow of `long`
  arithmetic or the `(int)` cast of the login timeout. Timeouts are
  unbounded integers. The same holds for `endTime` in `sqlQuery` and
  `getDatasetsByKey`.
- `setLoginTimeout(LOGIN_TIMEOUT)` on the introspection path has no
  effect on any outcome and is not modelled.
- `KeyCodec.Decode`: strings are sequences of Unicode characters, not
  of UTF-16 code units. After a `%`, Java's `charAt` and `deleteCharAt`
  see only the first code unit of a character outside the Basic
  Multilingual Plane, while the model sees the whole character. The two
  differ only on keys `encode` did not produce.
- `SqlText.Lower` folds only ASCII letters, standing for the database's
  `lower`. Other case mappings depend on the database.
- The statement texts are readers' views. How the database executes a
  statement, including the actual matching of LIKE, is only stated for
  the pattern language (`SqlText.Matches`).
- `HashMap` and `HashSet` iteration order is not modelled. The data of a
  row is a map, and `ReadRow` picks the schema columns in any order.
- Connections are not modelled. The source never closes the connections
  it opens (OOoDatasource.java:156 and :321).
- `Logger` output, `getName`, `getSchema`, `printQueryResults`,
  `printResults`, `simpleFind` and `main` are console output, test
  drivers or plain accessors.
- The parsing of `ConfigThingy` is not modelled. A definition is
  `Schema.Config`: optional NAME, SOURCE and TABLE, and the children of
  the first `Schema` and `Schluessel` sections.
- Exception messages are not modelled. Errors are `Schema.ConfigError`
  and `Executor.QueryError` values naming the situation.
