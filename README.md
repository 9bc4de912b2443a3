# Seata table-meta cache and Oracle primary-key resolution, in Dafny

This project models two parts of the Seata resource-manager data source:

- **The table-meta cache.** It is shared by every database dialect.
  - `getTableMeta` derives a cache key from the table name. It returns the cached `TableMeta` for that key, or fetches the schema once and stores it.
  - `refresh` re-fetches every cached entry whose key, recomputed from the entry's original name, is the key it is stored under. It overwrites the entry only when the fetched `TableMeta` differs.
- **The SQL Server dialect of the cache.**
  - `getCacheKey` builds `resourceId + "." + last name segment`. The segment is upper-cased unless the database supports mixed-case identifiers.
  - `resultSetMetaToSchema` turns three metadata listings into a `TableMeta`. The listings are the columns, the index rows and the primary-key rows. The builder rejects a column name repeated in any letter case, groups index rows by index name up to letter case, classifies each index as UNIQUE or NORMAL, retags the primary-key indexes as PRIMARY, and fails when no index was found.
- **The Oracle INSERT executor's primary-key resolution.**
  - `getPkValues` chooses between the values written in the statement and the keys the driver generated.
  - `getPkValuesByColumn` resolves the first key's list. A leading sequence expression is answered by the sequence query. A lone method call is answered by the generated keys. A lone NULL is refused.
  - `getSequenceSql` is the `currval` query template.

Files:

- `wrappers.dfy`: `Option` and `Result`. They stand for Java's `null` and for thrown exceptions.
- `java_strings.dfy`: the Java string operations the dialect relies on.
  - `String.split` with a one-character separator, including its removal of trailing empty strings.
  - `toUpperCase` and `StringUtils.isBlank`.
- `table_meta.dfy`: the values the cache stores (`TableMeta`, `ColumnMeta`, `IndexMeta`) and the fetch errors.
- `table_meta_cache.dfy`: the shared cache.
  - It is a class whose `entries` map the methods update.
  - A ghost `fetched` log records every name passed to the fetch.
  - The dialect's `getCacheKey` and `fetchSchema` are passed in as a record of functions.
- `sqlserver_table_meta_cache.dfy`: the SQL Server key derivation and schema builder.
  - The three builder loops are methods proved against fold definitions.
  - Lemmas relate those folds to what the resulting `TableMeta` holds.
  - `TableMeta`'s maps are taken to compare names up to letter case, as the duplicate-column message implies, so the model files each name under its upper-cased key.
- `oracle_insert_executor.dfy`: the Oracle resolution policy.
  - The base-class hooks are fields of an `InsertContext`.
  - The two resolution methods are proved against specification functions, and the properties are lemmas about those functions.

A Java `Map` from a primary-key column to its value list is a sequence of entries in iteration order. `getPkValuesByColumn` uses the first of these.

## Model

| member | source | states |
|---|---|---|
| AbstractTableMetaCache.TableMetaCache.GetTableMeta | rm-datasource/src/main/java/org/apache/seata/rm/datasource/sql/struct/cache/AbstractTableMetaCache.java:60-81 | An empty name is an IllegalArgument error and changes nothing. A key derivation that throws propagates. A hit returns the cached TableMeta and does not fetch. A miss fetches exactly once: a successful fetch is stored under the key and returned; a failed fetch stores nothing and ends in ShouldNeverHappen. Any success is what the cache holds under the key afterwards. |
| AbstractTableMetaCache.TableMetaCache.Refresh | rm-datasource/src/main/java/org/apache/seata/rm/datasource/sql/struct/cache/AbstractTableMetaCache.java:83-102 | The key set is kept. Refresh completes exactly when every entry's key can be derived from its original name. Only entries that match their key and whose fetch gave a different TableMeta are overwritten, and `changed` lists them. On completion the map is `Refreshed(old)` and `changed` is every replaced key. When it stops early, every entry is either its refreshed value or untouched. Earlier fetch-log entries are kept. |
| AbstractTableMetaCache.TableMetaCache.RefetchEntry | rm-datasource/src/main/java/org/apache/seata/rm/datasource/sql/struct/cache/AbstractTableMetaCache.java:89-99 | A matched entry is fetched once under its original name, or under its table name when the original name is blank. The entry is overwritten exactly when the fetch succeeded with a different TableMeta. A failed fetch leaves the entry. |
| AbstractTableMetaCache.RefreshOnlyReplacesMatched | rm-datasource/src/main/java/org/apache/seata/rm/datasource/sql/struct/cache/AbstractTableMetaCache.java:86-96 | Refresh keeps the keys and never replaces an entry whose recomputed key differs. An entry changes exactly when it is replaced. |
| AbstractTableMetaCache.RefreshWithoutChangeIsIdentity | rm-datasource/src/main/java/org/apache/seata/rm/datasource/sql/struct/cache/AbstractTableMetaCache.java:93-96 | When no fetch differs from its cached TableMeta, refresh leaves the map exactly as it was. |
| AbstractTableMetaCache.RefreshIdempotent | rm-datasource/src/main/java/org/apache/seata/rm/datasource/sql/struct/cache/AbstractTableMetaCache.java:86-101 | When fetches report the names of the entry they replace, a second refresh replaces nothing and changes nothing. |
| AbstractTableMetaCache.PartialView | rm-datasource/src/main/java/org/apache/seata/rm/datasource/sql/struct/cache/AbstractTableMetaCache.java:86-101 | After visiting some keys, the map holds the refreshed value exactly for the changed keys. Once every key is visited, it is the fully refreshed map and `changed` is every replaced key. |
| AbstractTableMetaCache.LookupTwice | rm-datasource/src/main/java/org/apache/seata/rm/datasource/sql/struct/cache/AbstractTableMetaCache.java:66-74 | After a successful lookup, a second lookup of the same name returns the same TableMeta. The two lookups fetch at most once between them. |
| JavaStrings.RawSplit | rm-datasource/src/main/java/io/seata/rm/datasource/sql/struct/cache/SqlServerTableMetaCache.java:36 | Splitting yields at least one part, and no part contains the separator. |
| JavaStrings.JavaSplit | rm-datasource/src/main/java/io/seata/rm/datasource/sql/struct/cache/SqlServerTableMetaCache.java:36 | No part contains the separator. A string without the separator is its own only part. Otherwise the parts are the raw parts minus the trailing empty ones, and the last part kept is non-empty. |
| JavaStrings.StripTrailingEmpty | rm-datasource/src/main/java/io/seata/rm/datasource/sql/struct/cache/SqlServerTableMetaCache.java:36 | The result is a prefix of the parts. It does not end in an empty part, and only empty parts were dropped. |
| JavaStrings.SplitThenJoin | rm-datasource/src/main/java/io/seata/rm/datasource/sql/struct/cache/SqlServerTableMetaCache.java:36 | Joining the split parts with the separator gives back the string. |
| JavaStrings.JoinThenSplit | rm-datasource/src/main/java/io/seata/rm/datasource/sql/struct/cache/SqlServerTableMetaCache.java:36 | Splitting a join of separator-free parts gives back the parts. |
| JavaStrings.SplitAround | rm-datasource/src/main/java/io/seata/rm/datasource/sql/struct/cache/SqlServerTableMetaCache.java:78 | Splitting `a.b` gives the parts of `a` followed by the parts of `b`. |
| JavaStrings.SplitWithoutSeparator | rm-datasource/src/main/java/io/seata/rm/datasource/sql/struct/cache/SqlServerTableMetaCache.java:78 | A string without the separator splits into itself alone. |
| JavaStrings.QualifiedSplit | rm-datasource/src/main/java/io/seata/rm/datasource/sql/struct/cache/SqlServerTableMetaCache.java:36-37 | A qualified name with a non-empty last part splits into the qualifier's parts followed by that last part. |
| JavaStrings.UnqualifiedSplit | rm-datasource/src/main/java/io/seata/rm/datasource/sql/struct/cache/SqlServerTableMetaCache.java:36-37 | A name without a dot splits into the name alone, even when it is empty. |
| JavaStrings.JavaSplitEmpty | rm-datasource/src/main/java/io/seata/rm/datasource/sql/struct/cache/SqlServerTableMetaCache.java:36-37 | The split is empty exactly when the name is non-empty and made only of dots. |
| JavaStrings.AllSeparators | rm-datasource/src/main/java/io/seata/rm/datasource/sql/struct/cache/SqlServerTableMetaCache.java:36 | A string made only of separators splits into empty parts. |
| JavaStrings.JoinOfEmpties | rm-datasource/src/main/java/io/seata/rm/datasource/sql/struct/cache/SqlServerTableMetaCache.java:36 | Joining empty parts gives only separators. |
| JavaStrings.ToUpper | rm-datasource/src/main/java/io/seata/rm/datasource/sql/struct/cache/SqlServerTableMetaCache.java:52 | Upper-casing keeps the length and maps every character by itself. |
| JavaStrings.IsBlank | rm-datasource/src/main/java/org/apache/seata/rm/datasource/sql/struct/cache/AbstractTableMetaCache.java:90-91 | A string is blank exactly when every character is whitespace. The empty string is blank. Refresh uses it to fall back to the table name, and the SQL Server query uses it to take the catalog and schema from the connection (SqlServerTableMetaCache.java:89-93). |
| JavaStrings.UpperIdempotent | rm-datasource/src/main/java/io/seata/rm/datasource/sql/struct/cache/SqlServerTableMetaCache.java:52 | Upper-casing twice is upper-casing once. |
| JavaStrings.UpperIgnoresCase | rm-datasource/src/main/java/io/seata/rm/datasource/sql/struct/cache/SqlServerTableMetaCache.java:52 | Names whose characters agree up to case upper-case to the same name. |
| SqlServerTableMetaCache.CacheKey | rm-datasource/src/main/java/io/seata/rm/datasource/sql/struct/cache/SqlServerTableMetaCache.java:30-60 | A key exists exactly when the name has a last segment. The key is `resourceId + "."` followed by that segment up to letter case. |
| SqlServerTableMetaCache.QualifiedNameSharesKey | rm-datasource/src/main/java/io/seata/rm/datasource/sql/struct/cache/SqlServerTableMetaCache.java:35-37 | A schema-qualified name and its bare table name have the same key. |
| SqlServerTableMetaCache.FoldedKeysIgnoreCase | rm-datasource/src/main/java/io/seata/rm/datasource/sql/struct/cache/SqlServerTableMetaCache.java:47-53 | Without mixed-case support, names whose last segments differ only in case share a key. |
| SqlServerTableMetaCache.MixedCaseKeysDiffer | rm-datasource/src/main/java/io/seata/rm/datasource/sql/struct/cache/SqlServerTableMetaCache.java:47-50 | With mixed-case support, different last segments give different keys. |
| SqlServerTableMetaCache.FooAndFOO | rm-datasource/src/main/java/io/seata/rm/datasource/sql/struct/cache/SqlServerTableMetaCache.java:47-53 | With an answer to the mixed-case question, "foo" and "FOO" share a key exactly when the database does not support mixed case. |
| SqlServerTableMetaCache.FallbackKeyIsUnfolded | rm-datasource/src/main/java/io/seata/rm/datasource/sql/struct/cache/SqlServerTableMetaCache.java:39-57 | When the metadata or the mixed-case answer cannot be had, the key uses the segment as written. |
| SqlServerTableMetaCache.KeyFailsOnlyForDots | rm-datasource/src/main/java/io/seata/rm/datasource/sql/struct/cache/SqlServerTableMetaCache.java:36-37 | Key derivation throws exactly for a non-empty name made only of dots. |
| SqlServerTableMetaCache.NameKey | rm-datasource/src/main/java/io/seata/rm/datasource/sql/struct/cache/SqlServerTableMetaCache.java:125-128 | The key a TableMeta map files a name under has the name's length and equals the name up to letter case. |
| SqlServerTableMetaCache.MetadataQuery | rm-datasource/src/main/java/io/seata/rm/datasource/sql/struct/cache/SqlServerTableMetaCache.java:77-96 | A query exists exactly when the unescaped name has a last segment, and the table queried is that segment. |
| SqlServerTableMetaCache.BareNameQuery | rm-datasource/src/main/java/io/seata/rm/datasource/sql/struct/cache/SqlServerTableMetaCache.java:80-96 | A bare name is looked up in the connection's catalog and schema. |
| SqlServerTableMetaCache.SchemaQualifiedQuery | rm-datasource/src/main/java/io/seata/rm/datasource/sql/struct/cache/SqlServerTableMetaCache.java:84-96 | `schema.table` sets the schema unless it is blank. The catalog comes from the connection. |
| SqlServerTableMetaCache.CatalogQualifiedQuery | rm-datasource/src/main/java/io/seata/rm/datasource/sql/struct/cache/SqlServerTableMetaCache.java:82-96 | `catalog.schema.table` sets the catalog unless it is blank. The schema comes from the connection, not from the name. |
| SqlServerTableMetaCache.LongQualifiedQuery | rm-datasource/src/main/java/io/seata/rm/datasource/sql/struct/cache/SqlServerTableMetaCache.java:82-96 | With four or more parts, the catalog is still the third part from the end, unless it is blank. The schema comes from the connection, and the leading parts are ignored. |
| SqlServerTableMetaCache.ResultSetMetaToSchema | rm-datasource/src/main/java/io/seata/rm/datasource/sql/struct/cache/SqlServerTableMetaCache.java:73-176 | The builder's three loops produce exactly `SchemaOf`, the TableMeta that `SchemaOutcome` describes, or its error. |
| SqlServerTableMetaCache.ReadColumns | rm-datasource/src/main/java/io/seata/rm/datasource/sql/struct/cache/SqlServerTableMetaCache.java:103-129 | The column loop computes the column fold. Each row is stored under the key of its name. A name repeated in any letter case aborts the loop. |
| SqlServerTableMetaCache.ReadIndexes | rm-datasource/src/main/java/io/seata/rm/datasource/sql/struct/cache/SqlServerTableMetaCache.java:131-162 | The index loop computes the index fold. Unnamed rows are skipped. Names are matched up to letter case. The first row of a name opens the index as UNIQUE or NORMAL, and later rows append their column. |
| SqlServerTableMetaCache.MarkPrimaryKeys | rm-datasource/src/main/java/io/seata/rm/datasource/sql/struct/cache/SqlServerTableMetaCache.java:164-170 | The primary-key loop retags as PRIMARY the present indexes a primary-key row names, in any letter case, and adds none. |
| SqlServerTableMetaCache.NoColumnsPersists | rm-datasource/src/main/java/io/seata/rm/datasource/sql/struct/cache/SqlServerTableMetaCache.java:125-127 | Once a repeated column name has aborted the column pass, later rows do not recover it. |
| SqlServerTableMetaCache.ColumnsFromContents | rm-datasource/src/main/java/io/seata/rm/datasource/sql/struct/cache/SqlServerTableMetaCache.java:103-129 | The column map's keys are exactly the keys of the row names, and each row is stored under the key of its name. |
| SqlServerTableMetaCache.ColumnsFromFails | rm-datasource/src/main/java/io/seata/rm/datasource/sql/struct/cache/SqlServerTableMetaCache.java:125-127 | The column pass fails exactly when two rows name the same column, in the same or another letter case. |
| SqlServerTableMetaCache.CaseVariantColumnRefused | rm-datasource/src/main/java/io/seata/rm/datasource/sql/struct/cache/SqlServerTableMetaCache.java:125-126 | Columns "id" then "ID" make the build fail with the not-supported error for a column repeated in another case. |
| SqlServerTableMetaCache.RowsNamed | rm-datasource/src/main/java/io/seata/rm/datasource/sql/struct/cache/SqlServerTableMetaCache.java:139-141 | Every row of an index's group has its name up to letter case. The group is non-empty exactly when some row has that name. |
| SqlServerTableMetaCache.IndexesFromAt | rm-datasource/src/main/java/io/seata/rm/datasource/sql/struct/cache/SqlServerTableMetaCache.java:132-162 | An index exists exactly for the key of a non-empty name that some row carries. It is the group of that name's rows in any letter case: its attributes and written name come from the first row, and its columns come from all the rows in order. |
| SqlServerTableMetaCache.IndexesFromKeys | rm-datasource/src/main/java/io/seata/rm/datasource/sql/struct/cache/SqlServerTableMetaCache.java:132-162 | The index keys are exactly the keys of the non-empty names in the rows. |
| SqlServerTableMetaCache.FirstRowNamed | rm-datasource/src/main/java/io/seata/rm/datasource/sql/struct/cache/SqlServerTableMetaCache.java:142-160 | The group of a name starts with the first row carrying that name in any letter case. |
| SqlServerTableMetaCache.IndexKind | rm-datasource/src/main/java/io/seata/rm/datasource/sql/struct/cache/SqlServerTableMetaCache.java:155-168 | An index is PRIMARY when a primary-key row names it in any letter case. Otherwise its first row decides: NORMAL if non-unique, else UNIQUE. The index keeps the first row's name as written. |
| SqlServerTableMetaCache.IndexColumns | rm-datasource/src/main/java/io/seata/rm/datasource/sql/struct/cache/SqlServerTableMetaCache.java:137-154 | An index lists the column of each of its rows in row order, found up to letter case. The column is absent when the listing lacks it. |
| SqlServerTableMetaCache.SchemaOutcome | rm-datasource/src/main/java/io/seata/rm/datasource/sql/struct/cache/SqlServerTableMetaCache.java:73-176 | The build fails exactly when a column name repeats (letter case aside) or no index row has a name; a repeated name is the not-supported error. A built TableMeta has the requested name, every column row under the key of its name and one index per index name. Exactly the indexes a primary-key row names are PRIMARY. |
| SqlServerTableMetaCache.SchemaKeepsRequestedName | rm-datasource/src/main/java/io/seata/rm/datasource/sql/struct/cache/SqlServerTableMetaCache.java:73-77 | A fetched TableMeta carries the name as requested, before unescaping, and leaves the original name unset. |
| SqlServerTableMetaCache.AsWrittenEntriesStopRefresh | rm-datasource/src/main/java/org/apache/seata/rm/datasource/sql/struct/cache/AbstractTableMetaCache.java:86-88 | Any cache holding a TableMeta fetched as written cannot derive that entry's key at refresh, so refresh stops there. |
| SqlServerTableMetaCache.LoadThenRefreshAsWritten | rm-datasource/src/main/java/org/apache/seata/rm/datasource/sql/struct/cache/AbstractTableMetaCache.java:83-88 | As written, loading a table into a new cache and refreshing it ends refresh with the exception. |
| SqlServerTableMetaCache.RecordedSchemaOf | rm-datasource/src/main/java/io/seata/rm/datasource/sql/struct/cache/SqlServerTableMetaCache.java:62-76 | The corrected fetch succeeds exactly when the fetch as written does, and returns the same TableMeta with the requested name recorded as the original name. |
| SqlServerTableMetaCache.StoredEntriesAreRefetched | rm-datasource/src/main/java/org/apache/seata/rm/datasource/sql/struct/cache/AbstractTableMetaCache.java:86-92 | With the original name recorded, an entry getTableMeta stored matches its key at refresh, and is re-fetched under the name it was requested with. |
| SqlServerTableMetaCache.LoadThenRefresh | rm-datasource/src/main/java/org/apache/seata/rm/datasource/sql/struct/cache/AbstractTableMetaCache.java:83-102 | With the original name recorded, refreshing a new cache right after a load completes and overwrites nothing. |
| OracleInsertExecutor.GetPkValues | rm-datasource/src/main/java/io/seata/rm/datasource/exec/oracle/OracleInsertExecutor.java:60-77 | Computes exactly `PkValues`, the result the lemmas below characterize. The result keeps column names distinct. |
| OracleInsertExecutor.GetPkValuesByColumn | rm-datasource/src/main/java/io/seata/rm/datasource/exec/oracle/OracleInsertExecutor.java:79-97 | The put of the resolved first list computes exactly `PkValuesByColumn`. It keeps column names distinct. |
| OracleInsertExecutor.Put | rm-datasource/src/main/java/io/seata/rm/datasource/exec/oracle/OracleInsertExecutor.java:89-91 | Putting a held column replaces that column's list in place. Every other entry and the iteration order are kept. |
| OracleInsertExecutor.ListedPkResolvedFromStatement | rm-datasource/src/main/java/io/seata/rm/datasource/exec/oracle/OracleInsertExecutor.java:65-74 | A listed primary key, or a statement without a column list, is resolved by getPkValuesByColumn. |
| OracleInsertExecutor.OmittedPkUsesGeneratedKeys | rm-datasource/src/main/java/io/seata/rm/datasource/exec/oracle/OracleInsertExecutor.java:68-71 | With columns listed and the primary key omitted, the result is a one-entry map from the first primary-key column to the generated keys. When getGeneratedKeys fails, its failure is the result. An empty key list is IndexOutOfBounds. The parsed values and sequence answers are not consulted. |
| OracleInsertExecutor.SequenceTakesPrecedence | rm-datasource/src/main/java/io/seata/rm/datasource/exec/oracle/OracleInsertExecutor.java:88-89 | A first list led by a sequence expression is replaced by the sequence query's answer, whatever its length. Its failure propagates. The generated keys are not consulted. |
| OracleInsertExecutor.SingleMethodUsesGeneratedKeys | rm-datasource/src/main/java/io/seata/rm/datasource/exec/oracle/OracleInsertExecutor.java:90-91 | A lone method call is replaced by the generated keys. Their failure propagates. |
| OracleInsertExecutor.SeveralMethodsKept | rm-datasource/src/main/java/io/seata/rm/datasource/exec/oracle/OracleInsertExecutor.java:90-96 | Several values led by a method call are returned as parsed. |
| OracleInsertExecutor.SingleNullRejected | rm-datasource/src/main/java/io/seata/rm/datasource/exec/oracle/OracleInsertExecutor.java:92-93 | A lone NULL fails with NotSupportYet("oracle not support null"). |
| OracleInsertExecutor.PlainValuesKept | rm-datasource/src/main/java/io/seata/rm/datasource/exec/oracle/OracleInsertExecutor.java:88-96 | An empty first list, or one led by a literal or a placeholder, leaves the parsed map unchanged. |
| OracleInsertExecutor.EmptyParseFails | rm-datasource/src/main/java/io/seata/rm/datasource/exec/oracle/OracleInsertExecutor.java:82-84 | A parsed map without entries fails with NoSuchElement, as does getPkValues whenever it takes that path. |
| OracleInsertExecutor.OnlyFirstListChanges | rm-datasource/src/main/java/io/seata/rm/datasource/exec/oracle/OracleInsertExecutor.java:84-96 | On success the columns and their order are kept, every entry after the first is the parsed one, and the first changes only when its list had to be resolved. |
| OracleInsertExecutor.ByColumnFailures | rm-datasource/src/main/java/io/seata/rm/datasource/exec/oracle/OracleInsertExecutor.java:82-96 | Every failure comes from one of four places: the parser, an empty map, a lone NULL, the generated keys when the first list is a lone method call, or the sequence query when it starts with a sequence expression. |
| OracleInsertExecutor.GetSequenceSql | rm-datasource/src/main/java/io/seata/rm/datasource/exec/oracle/OracleInsertExecutor.java:99-102 | The query is "SELECT " followed by the sequence name and ".currval FROM DUAL". |
| OracleInsertExecutor.SequenceSqlRoundTrip | rm-datasource/src/main/java/io/seata/rm/datasource/exec/oracle/OracleInsertExecutor.java:99-102 | The sequence name can be read back from its query. |
| OracleInsertExecutor.SequenceSqlOnlyFromTemplate | rm-datasource/src/main/java/io/seata/rm/datasource/exec/oracle/OracleInsertExecutor.java:99-102 | Every text of the query's shape is the query of the sequence it names. |
| OracleInsertExecutor.SequenceSqlInjective | rm-datasource/src/main/java/io/seata/rm/datasource/exec/oracle/OracleInsertExecutor.java:99-102 | Two expressions give the same query exactly when they name the same sequence. The accessor (nextval, currval) plays no part. |

## Left out

- Caffeine's eviction is not modelled: the size bound of 100000, the 15-minute expiry after write and soft values. The cache is an unbounded map, so an entry may vanish in Java where the model still holds it.
- Concurrency is not modelled: the single-flight coalescing of concurrent misses, and refresh running beside lookups. Every call is sequential.
- The database is an input. Within one call the fetch is a function of the connection and the name, and the metadata listings are sequences of rows. JDBC cursors, statements and `close` are not modelled.
- `ColumnUtils.delEscape` is not part of this model. It is a parameter of the SQL Server fetch.
- Only the `ColumnMeta` attributes the model compares are kept: name, data type, type name, size, position and auto-increment flag. Nor does `IndexMeta` keep the index qualifier, the index `TYPE` or the cardinality. `TableMeta.equals` is structural equality over what is kept.
- `LinkedHashMap` column order in `TableMeta` is not kept; columns are a `map`.
- The TableMeta class is not part of this model. Its column and index maps are taken to compare names up to ASCII letter case, which the duplicate-column message at SqlServerTableMetaCache.java:126 implies. The model files each name under its upper-cased form, `NameKey`.
- The SQL Server cache extends the `io.seata` variant of `AbstractTableMetaCache`, which is not part of this model. It is modelled on top of the `org.apache.seata` `AbstractTableMetaCache` (AbstractTableMetaCache.java:60-102), taking both to have the same `getTableMeta` and `refresh`.
- `toUpperCase` and `isBlank` cover ASCII only: ASCII letters, and the ASCII characters `Character.isWhitespace` accepts. Other Unicode letters and spaces are left unchanged.
- Java `null` strings: an unset original table name is `None`. A null index name or primary-key name is the empty string, which the code skips or never matches in the same way.
- A SQL Server connection whose `getCatalog`/`getSchema` throws is not modelled; the connection's catalog and schema are plain values.
- Log lines, exception messages other than the Oracle null message, and `RootContext.getXID` are not modelled.
- AbstractTableMetaCache.TableMetaCache.Refresh: the count of fetches refresh makes is not stated; the contract only says earlier fetch-log entries are kept.
- The Oracle executor's base-class hooks are inputs of the resolution, each a value or a `Failure`: `containsPK`, `containsColumns`, the primary-key names, `parsePkValuesFromStatement`, `getGeneratedKeys` and `getPkValuesBySequence`. Their own behaviour is not part of this model.
- A failure of `getTableMeta` inside the Oracle executor's `getPkValues` is not modelled; the primary-key names are a plain input.
- The generated keys and the sequence answers are lists of primary-key values. The executor does not look at their contents.
- The RPC layer is not modelled: it is not part of the cache or the executor.

## Findings

| source | as written | input that shows it | evidently intended | confidence | as-written member | corrected member |
|---|---|---|---|---|---|---|
| rm-datasource/src/main/java/io/seata/rm/datasource/sql/struct/cache/SqlServerTableMetaCache.java:73-76 | The SQL Server fetch sets only the table name and leaves the original table name null. Refresh (line 87 of AbstractTableMetaCache.java) then asks for the key of that null name, and splitting it throws. | With the SQL Server fetch paired with the refresh of the `org.apache.seata` `AbstractTableMetaCache` (AbstractTableMetaCache.java:83-102), load any table through getTableMeta, then call refresh with the same connection. | The fetch records the requested name as the original name. Refresh then recomputes the entry's key, re-fetches it and keeps it when unchanged; the blank-name fallback of lines 90-91 shows a null original name was meant to be handled. | low to medium: rests on TableMeta's original name defaulting to null and on the `io.seata` parent refreshing as the `org.apache.seata` one (AbstractTableMetaCache.java:83-102) does; not executed | SqlServerTableMetaCache.AsWrittenEntriesStopRefresh | SqlServerTableMetaCache.StoredEntriesAreRefetched |
