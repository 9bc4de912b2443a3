/**
 * The SQL Server dialect of the table-meta cache: how a table name becomes a
 * cache key, which catalog / schema / table the metadata queries are asked
 * about, and how the three metadata listings (columns, index rows, primary-key
 * rows) are turned into a TableMeta.
 *
 * The JDBC connection is a value: the current catalog and schema, and the
 * database metadata when getMetaData() succeeds. The metadata holds the
 * answer of supportsMixedCaseIdentifiers() (None when that call fails) and
 * the three listings as functions of the query, each a sequence of rows in
 * the order the result set yields them.
 */
module SqlServerTableMetaCache {
  import opened Wrappers
  import opened JavaStrings
  import opened TableMetaTypes
  import AbstractTableMetaCache

  /** The catalog, schema and bare table name the metadata listings are asked for. */
  datatype MetaQuery = MetaQuery(catalog: string, schema: string, table: string)

  /** One row of getIndexInfo; a null INDEX_NAME is the empty string. */
  datatype IndexRow = IndexRow(
    indexName: string,
    columnName: string,
    nonUnique: bool,
    ascOrDesc: string,
    ordinalPosition: int)

  datatype DatabaseMeta = DatabaseMeta(
    supportsMixedCase: Option<bool>,
    columns: MetaQuery -> seq<ColumnMeta>,
    indexInfo: MetaQuery -> seq<IndexRow>,
    primaryKeys: MetaQuery -> seq<string>)

  datatype Connection = Connection(
    metaData: Option<DatabaseMeta>,
    catalog: string,
    schema: string)

  const Separator: char := '.'

  /** The last dot-separated segment of a name, None when the name has no segment. */
  function LastSegment(name: string): (segment: Option<string>)
  {
    var segments := JavaSplit(name, Separator);
    if segments == [] then None else Some(segments[|segments| - 1])
  }

  predicate EqualsIgnoreCase(a: string, b: string)
  {
    ToUpper(a) == ToUpper(b)
  }

  // ---------------------------------------------------------------------
  // getCacheKey

  /**
   * resourceId + "." + the last segment of the name, upper-cased unless the
   * database supports mixed-case identifiers; unfolded when the metadata or
   * the mixed-case answer cannot be had. None is the array-index exception
   * Java raises for a name that splits into no segment.
   */
  function CacheKey(conn: Connection, tableName: string, resourceId: string): (key: Option<string>)
    ensures key.Some? <==> LastSegment(tableName).Some?
    ensures key.Some? ==>
      && |key.value| == |resourceId| + 1 + |LastSegment(tableName).value|
      && key.value[..|resourceId| + 1] == resourceId + "."
      && EqualsIgnoreCase(key.value[|resourceId| + 1..], LastSegment(tableName).value)
  {
    match LastSegment(tableName)
    case None => None
    case Some(defaultTableName) =>
      var prefix := resourceId + ".";
      match conn.metaData
      case None => Some(prefix + defaultTableName)
      case Some(md) =>
        match md.supportsMixedCase
        case None => Some(prefix + defaultTableName)
        case Some(mixed) =>
          if mixed then Some(prefix + defaultTableName)
          else Some(prefix + ToUpper(defaultTableName))
  }

  /** The database reports no mixed-case support, so names are folded. */
  predicate FoldsCase(conn: Connection)
  {
    conn.metaData.Some? && conn.metaData.value.supportsMixedCase == Some(false)
  }

  /** A schema-qualified name and the bare table name share one key. */
  lemma QualifiedNameSharesKey(conn: Connection, qualifier: string, table: string, resourceId: string)
    requires table != "" && Separator !in table
    ensures CacheKey(conn, qualifier + "." + table, resourceId) == CacheKey(conn, table, resourceId)
  {
    QualifiedSplit(qualifier, table, Separator);
    UnqualifiedSplit(table, Separator);
  }

  /** Without mixed-case support, names differing only in letter case share one key. */
  lemma FoldedKeysIgnoreCase(conn: Connection, a: string, b: string, resourceId: string)
    requires FoldsCase(conn)
    requires LastSegment(a).Some? && LastSegment(b).Some?
    requires EqualsIgnoreCase(LastSegment(a).value, LastSegment(b).value)
    ensures CacheKey(conn, a, resourceId) == CacheKey(conn, b, resourceId)
  {
  }

  /** With mixed-case support, different table segments give different keys. */
  lemma MixedCaseKeysDiffer(conn: Connection, a: string, b: string, resourceId: string)
    requires conn.metaData.Some? && conn.metaData.value.supportsMixedCase == Some(true)
    requires LastSegment(a).Some? && LastSegment(b).Some?
    requires LastSegment(a).value != LastSegment(b).value
    ensures CacheKey(conn, a, resourceId) != CacheKey(conn, b, resourceId)
  {
    var prefix := resourceId + ".";
    var ka, kb := prefix + LastSegment(a).value, prefix + LastSegment(b).value;
    assert ka[|prefix|..] == LastSegment(a).value;
    assert kb[|prefix|..] == LastSegment(b).value;
  }

  /** "foo" and "FOO" share a key without mixed-case support and not with it. */
  lemma FooAndFOO(conn: Connection, resourceId: string)
    requires conn.metaData.Some? && conn.metaData.value.supportsMixedCase.Some?
    ensures CacheKey(conn, "foo", resourceId) == CacheKey(conn, "FOO", resourceId) <==> FoldsCase(conn)
  {
    UnqualifiedSplit("foo", Separator);
    UnqualifiedSplit("FOO", Separator);
    assert ToUpper("foo") == "FOO";
    if !FoldsCase(conn) {
      assert conn.metaData.value.supportsMixedCase.value;
      MixedCaseKeysDiffer(conn, "foo", "FOO", resourceId);
    }
  }

  /** When the metadata or the mixed-case answer is unavailable the segment is not folded. */
  lemma FallbackKeyIsUnfolded(conn: Connection, tableName: string, resourceId: string)
    requires conn.metaData.None? || conn.metaData.value.supportsMixedCase.None?
    requires LastSegment(tableName).Some?
    ensures CacheKey(conn, tableName, resourceId) == Some(resourceId + "." + LastSegment(tableName).value)
  {
  }

  /** A name made only of dots has no key (Java throws); every other name has one. */
  lemma KeyFailsOnlyForDots(conn: Connection, tableName: string, resourceId: string)
    ensures CacheKey(conn, tableName, resourceId).None?
        <==> (tableName != "" && forall i :: 0 <= i < |tableName| ==> tableName[i] == Separator)
  {
    JavaSplitEmpty(tableName, Separator);
  }

  // ---------------------------------------------------------------------
  // Catalog, schema and table of the metadata queries

  /**
   * The query for an (unescaped) table name: with three or more segments the
   * catalog is the third-from-last one, with exactly two the schema is the
   * first; a blank catalog or schema is taken from the connection, and the
   * table is always the last segment.
   */
  function MetadataQuery(conn: Connection, name: string): (q: Option<MetaQuery>)
    ensures q.Some? <==> LastSegment(name).Some?
    ensures q.Some? ==> q.value.table == LastSegment(name).value
  {
    var segments := JavaSplit(name, Separator);
    var n := |segments|;
    var catalogName := if n > 2 then segments[n - 3] else "";
    var schemaName := if n > 2 then "" else if n > 1 then segments[n - 2] else "";
    var catalogName' := if IsBlank(catalogName) then conn.catalog else catalogName;
    var schemaName' := if IsBlank(schemaName) then conn.schema else schemaName;
    if n == 0 then None else Some(MetaQuery(catalogName', schemaName', segments[n - 1]))
  }

  lemma BareNameQuery(conn: Connection, table: string)
    requires Separator !in table
    ensures MetadataQuery(conn, table) == Some(MetaQuery(conn.catalog, conn.schema, table))
  {
    UnqualifiedSplit(table, Separator);
  }

  lemma SchemaQualifiedQuery(conn: Connection, schema: string, table: string)
    requires Separator !in schema && Separator !in table && table != ""
    ensures MetadataQuery(conn, schema + "." + table)
         == Some(MetaQuery(conn.catalog, if IsBlank(schema) then conn.schema else schema, table))
  {
    QualifiedSplit(schema, table, Separator);
    SplitWithoutSeparator(schema, Separator);
  }

  /** A three-part name sets the catalog; its schema part is not used. */
  lemma CatalogQualifiedQuery(conn: Connection, catalog: string, schema: string, table: string)
    requires Separator !in catalog && Separator !in schema && Separator !in table && table != ""
    ensures MetadataQuery(conn, catalog + "." + schema + "." + table)
         == Some(MetaQuery(if IsBlank(catalog) then conn.catalog else catalog, conn.schema, table))
  {
    QualifiedSplit(catalog + "." + schema, table, Separator);
    SplitAround(catalog, schema, Separator);
    SplitWithoutSeparator(catalog, Separator);
    SplitWithoutSeparator(schema, Separator);
  }

  /**
   * A name of four or more parts (a server or other qualifier first) still
   * takes its catalog from the third-from-last part and its schema from the
   * connection; the qualifier is ignored.
   */
  lemma LongQualifiedQuery(conn: Connection, q: string, catalog: string, schema: string, table: string)
    requires Separator !in catalog && Separator !in schema && Separator !in table && table != ""
    ensures MetadataQuery(conn, q + "." + catalog + "." + schema + "." + table)
         == Some(MetaQuery(if IsBlank(catalog) then conn.catalog else catalog, conn.schema, table))
  {
    QualifiedSplit(q + "." + catalog + "." + schema, table, Separator);
    SplitAround(q + "." + catalog, schema, Separator);
    SplitAround(q, catalog, Separator);
    SplitWithoutSeparator(catalog, Separator);
    SplitWithoutSeparator(schema, Separator);
  }

  // ---------------------------------------------------------------------
  // The TableMeta built from the listings, pass by pass

  /**
   * The key a TableMeta column or index map files a name under. The maps
   * ignore letter case (a column repeated in another case is refused as a
   * duplicate), so names equal up to case share one key.
   */
  function NameKey(name: string): (key: string)
    ensures |key| == |name| && EqualsIgnoreCase(key, name)
  {
    UpperIdempotent(name);
    ToUpper(name)
  }

  /** The keys of the primary-key names, in row order. */
  function PkKeys(pkNames: seq<string>): (keys: seq<string>)
    ensures |keys| == |pkNames|
    ensures forall i :: 0 <= i < |pkNames| ==> keys[i] == NameKey(pkNames[i])
  {
    seq(|pkNames|, i requires 0 <= i < |pkNames| => NameKey(pkNames[i]))
  }

  /** The column pass: every row stored under its name; None on a name repeated in any case. */
  function ColumnsFrom(rows: seq<ColumnMeta>): (columns: Option<map<string, ColumnMeta>>)
  {
    if rows == [] then Some(map[])
    else
      match ColumnsFrom(rows[..|rows| - 1])
      case None => None
      case Some(columns) =>
        var col := rows[|rows| - 1];
        var key := NameKey(col.columnName);
        if key in columns then None else Some(columns[key := col])
  }

  /** The column an index row refers to, in any case; None when the column listing lacks it. */
  function ColumnOf(columns: map<string, ColumnMeta>, row: IndexRow): (column: Option<ColumnMeta>)
  {
    var key := NameKey(row.columnName);
    if key in columns then Some(columns[key]) else None
  }

  function KindOf(nonUnique: bool): (kind: IndexType)
  {
    if nonUnique then Normal else Unique
  }

  /** The index pass: skip unnamed rows, append to a known index, or open a new one. */
  function IndexesFrom(columns: map<string, ColumnMeta>, rows: seq<IndexRow>): (indexes: map<string, IndexMeta>)
  {
    if rows == [] then map[]
    else
      var indexes := IndexesFrom(columns, rows[..|rows| - 1]);
      var row := rows[|rows| - 1];
      var n := NameKey(row.indexName);
      if row.indexName == "" then indexes
      else if n in indexes then
        indexes[n := indexes[n].(values := indexes[n].values + [ColumnOf(columns, row)])]
      else
        indexes[n := IndexMeta(row.indexName, row.nonUnique, row.ascOrDesc, row.ordinalPosition,
                               KindOf(row.nonUnique), [ColumnOf(columns, row)])]
  }

  /** The primary-key pass: every index a primary-key row names, in any case, becomes PRIMARY; none is added. */
  function Retagged(indexes: map<string, IndexMeta>, pkNames: seq<string>): (retagged: map<string, IndexMeta>)
  {
    map n | n in indexes :: if n in PkKeys(pkNames) then indexes[n].(indexType := Primary) else indexes[n]
  }

  /** The TableMeta the three listings describe, or the error the builder raises. */
  function SchemaFrom(tableName: string, columnRows: seq<ColumnMeta>, indexRows: seq<IndexRow>,
                      pkNames: seq<string>): (schema: Result<TableMeta, FetchError>)
  {
    match ColumnsFrom(columnRows)
    case None => Failure(DuplicateColumnName)
    case Some(columns) =>
      var indexes := Retagged(IndexesFrom(columns, indexRows), pkNames);
      if indexes == map[] then Failure(NoIndexFound)
      else Success(TableMeta(tableName, None, columns, indexes))
  }

  /**
   * fetchSchema: the TableMeta for a name as written. The name is unescaped
   * before it is split; the TableMeta keeps the name as written.
   */
  function SchemaOf(conn: Connection, tableName: string, delEscape: string -> string): (schema: Result<TableMeta, FetchError>)
  {
    match MetadataQuery(conn, delEscape(tableName))
    case None => Failure(MalformedTableName)
    case Some(q) =>
      match conn.metaData
      case None => Failure(MetadataUnavailable)
      case Some(md) => SchemaFrom(tableName, md.columns(q), md.indexInfo(q), md.primaryKeys(q))
  }

  /** getCacheKey of a nullable name: splitting null throws, so there is no key. */
  function NullableCacheKey(conn: Connection, tableName: Option<string>, resourceId: string): (key: Option<string>)
  {
    match tableName
    case None => None
    case Some(name) => CacheKey(conn, name, resourceId)
  }

  /** The SQL Server cache-key and fetch operations as written: the fetch leaves the original name unset. */
  function AsWrittenDialect(delEscape: string -> string): (dialect: AbstractTableMetaCache.Dialect<Connection>)
  {
    AbstractTableMetaCache.Dialect(
      (conn, tableName, resourceId) => NullableCacheKey(conn, tableName, resourceId),
      (conn, tableName) => SchemaOf(conn, tableName, delEscape))
  }

  /** The fetch with the requested name also recorded as the original name. */
  function RecordedSchemaOf(conn: Connection, tableName: string, delEscape: string -> string): (r: Result<TableMeta, FetchError>)
    ensures r.Success? <==> SchemaOf(conn, tableName, delEscape).Success?
    ensures r.Failure? ==> r == SchemaOf(conn, tableName, delEscape)
    ensures r.Success? ==>
      && r.value.originalTableName == Some(tableName)
      && r.value.(originalTableName := None) == SchemaOf(conn, tableName, delEscape).value
  {
    match SchemaOf(conn, tableName, delEscape)
    case Failure(e) => Failure(e)
    case Success(tm) => Success(tm.(originalTableName := Some(tableName)))
  }

  /** The SQL Server cache-key and fetch operations the shared cache is modelled with. */
  function RecordingDialect(delEscape: string -> string): (dialect: AbstractTableMetaCache.Dialect<Connection>)
  {
    AbstractTableMetaCache.Dialect(
      (conn, tableName, resourceId) => NullableCacheKey(conn, tableName, resourceId),
      (conn, tableName) => RecordedSchemaOf(conn, tableName, delEscape))
  }

  /**
   * As written, a TableMeta loaded through getTableMeta has no original name,
   * so refresh computes no key for it: any cache holding one makes refresh
   * stop with the exception, and that entry is never re-fetched.
   */
  lemma AsWrittenEntriesStopRefresh(conn: Connection, tableName: string, delEscape: string -> string,
                                    refreshConn: Connection, resourceId: string, m: map<string, TableMeta>, k: string)
    requires SchemaOf(conn, tableName, delEscape).Success?
    requires k in m && m[k] == SchemaOf(conn, tableName, delEscape).value
    ensures !AbstractTableMetaCache.KeysDerivable(AsWrittenDialect(delEscape), refreshConn, resourceId, m)
    ensures !AbstractTableMetaCache.Matches(AsWrittenDialect(delEscape), refreshConn, resourceId, k, m[k])
  {
    assert AsWrittenDialect(delEscape).cacheKey(refreshConn, m[k].originalTableName, resourceId).None?;
  }

  /** As written, loading any table into a new cache and then refreshing it ends refresh with the exception. */
  method LoadThenRefreshAsWritten(conn: Connection, tableName: string, delEscape: string -> string, resourceId: string)
    returns (loaded: Result<TableMeta, AbstractTableMetaCache.CacheError>, ok: bool)
    ensures loaded.Success? ==> !ok
  {
    var cache := new AbstractTableMetaCache.TableMetaCache();
    var d := AsWrittenDialect(delEscape);
    loaded := cache.GetTableMeta(d, conn, tableName, resourceId);
    if loaded.Success? {
      var key := CacheKey(conn, tableName, resourceId).value;
      assert loaded.value == SchemaOf(conn, tableName, delEscape).value;
      AsWrittenEntriesStopRefresh(conn, tableName, delEscape, conn, resourceId, cache.entries, key);
    }
    var changed;
    ok, changed := cache.Refresh(d, conn, resourceId);
  }

  /**
   * With the original name recorded, an entry getTableMeta stored under the
   * key of its name matches that key again at refresh, and is re-fetched
   * under the name it was requested with.
   */
  lemma StoredEntriesAreRefetched(conn: Connection, tableName: string, delEscape: string -> string, resourceId: string)
    requires CacheKey(conn, tableName, resourceId).Some?
    requires RecordedSchemaOf(conn, tableName, delEscape).Success?
    ensures var d, tm := RecordingDialect(delEscape), RecordedSchemaOf(conn, tableName, delEscape).value;
      && d.cacheKey(conn, Some(tableName), resourceId) == CacheKey(conn, tableName, resourceId)
      && AbstractTableMetaCache.Matches(d, conn, resourceId, CacheKey(conn, tableName, resourceId).value, tm)
      && AbstractTableMetaCache.FreshName(tm) == tableName
  {
  }

  /**
   * With the original name recorded, refreshing a new cache right after a
   * load completes, finds the table unchanged and overwrites nothing.
   */
  method LoadThenRefresh(conn: Connection, tableName: string, delEscape: string -> string, resourceId: string)
    returns (loaded: Result<TableMeta, AbstractTableMetaCache.CacheError>, ok: bool, changed: set<string>)
    ensures loaded.Success? ==> ok && changed == {}
  {
    var cache := new AbstractTableMetaCache.TableMetaCache();
    var d := RecordingDialect(delEscape);
    loaded := cache.GetTableMeta(d, conn, tableName, resourceId);
    if loaded.Success? {
      var key := CacheKey(conn, tableName, resourceId).value;
      StoredEntriesAreRefetched(conn, tableName, delEscape, resourceId);
      assert cache.entries == map[key := loaded.value];
      assert !AbstractTableMetaCache.Replaces(d, conn, resourceId, key, loaded.value);
      assert AbstractTableMetaCache.ReplacedKeys(d, conn, resourceId, cache.entries) == {};
    }
    ok, changed := cache.Refresh(d, conn, resourceId);
  }

  // ---------------------------------------------------------------------
  // resultSetMetaToSchema

  /**
   * Builds the TableMeta as the source does: three passes over the listings,
   * updating the column map, the index map and the index kinds in place.
   */
  method ResultSetMetaToSchema(conn: Connection, tableName: string, delEscape: string -> string)
    returns (r: Result<TableMeta, FetchError>)
    ensures r == SchemaOf(conn, tableName, delEscape)
  {
    var query := MetadataQuery(conn, delEscape(tableName));
    if query.None? {
      return Failure(MalformedTableName);
    }
    if conn.metaData.None? {
      return Failure(MetadataUnavailable);
    }
    var md, q := conn.metaData.value, query.value;
    var columns := ReadColumns(md.columns(q));
    if columns.None? {
      return Failure(DuplicateColumnName);
    }
    var indexes := ReadIndexes(columns.value, md.indexInfo(q));
    indexes := MarkPrimaryKeys(indexes, md.primaryKeys(q));
    if indexes == map[] {
      return Failure(NoIndexFound);
    }
    return Success(TableMeta(tableName, None, columns.value, indexes));
  }

  /** The column loop; None is the not-supported error for a repeated column name. */
  method ReadColumns(rows: seq<ColumnMeta>) returns (columns: Option<map<string, ColumnMeta>>)
    ensures columns == ColumnsFrom(rows)
  {
    var m: map<string, ColumnMeta> := map[];
    var i := 0;
    while i < |rows|
      invariant 0 <= i <= |rows|
      invariant ColumnsFrom(rows[..i]) == Some(m)
    {
      var col := rows[i];
      assert rows[..i + 1][..i] == rows[..i];
      if NameKey(col.columnName) in m {
        NoColumnsPersists(rows[..i + 1], rows);
        return None;
      }
      m := m[NameKey(col.columnName) := col];
      i := i + 1;
    }
    assert rows[..i] == rows;
    return Some(m);
  }

  lemma {:induction false} NoColumnsPersists(prefix: seq<ColumnMeta>, rows: seq<ColumnMeta>)
    requires prefix <= rows
    requires ColumnsFrom(prefix).None?
    ensures ColumnsFrom(rows).None?
    decreases |rows|
  {
    if |rows| > |prefix| {
      NoColumnsPersists(prefix, rows[..|rows| - 1]);
    } else {
      assert prefix == rows;
    }
  }

  /** The index loop: rows grouped by index name, null / empty names skipped. */
  method ReadIndexes(columns: map<string, ColumnMeta>, rows: seq<IndexRow>) returns (indexes: map<string, IndexMeta>)
    ensures indexes == IndexesFrom(columns, rows)
  {
    indexes := map[];
    var i := 0;
    while i < |rows|
      invariant 0 <= i <= |rows|
      invariant indexes == IndexesFrom(columns, rows[..i])
    {
      var row := rows[i];
      assert rows[..i + 1][..i] == rows[..i];
      var indexName := row.indexName;
      if indexName != "" {
        var key := NameKey(indexName);
        if key in indexes {
          var index := indexes[key];
          indexes := indexes[key := index.(values := index.values + [ColumnOf(columns, row)])];
        } else {
          var index := IndexMeta(indexName, row.nonUnique, row.ascOrDesc, row.ordinalPosition,
                                 Normal, [ColumnOf(columns, row)]);
          if !index.nonUnique {
            index := index.(indexType := Unique);
          } else {
            index := index.(indexType := Normal);
          }
          indexes := indexes[key := index];
        }
      }
      i := i + 1;
    }
    assert rows[..i] == rows;
  }

  /** The primary-key loop: retags present indexes as PRIMARY, adds none. */
  method MarkPrimaryKeys(grouped: map<string, IndexMeta>, pkNames: seq<string>) returns (indexes: map<string, IndexMeta>)
    ensures indexes == Retagged(grouped, pkNames)
  {
    indexes := grouped;
    var k := 0;
    while k < |pkNames|
      invariant 0 <= k <= |pkNames|
      invariant indexes == Retagged(grouped, pkNames[..k])
    {
      var key := NameKey(pkNames[k]);
      if key in indexes {
        indexes := indexes[key := indexes[key].(indexType := Primary)];
      }
      assert PkKeys(pkNames[..k + 1]) == PkKeys(pkNames[..k]) + [key];
      k := k + 1;
    }
    assert pkNames[..k] == pkNames;
  }

  // ---------------------------------------------------------------------
  // What the passes compute, stated without the passes

  /** No two column rows name the same column, letter case aside. */
  predicate DistinctColumnNames(rows: seq<ColumnMeta>)
  {
    forall i, j :: 0 <= i < j < |rows| ==> !EqualsIgnoreCase(rows[i].columnName, rows[j].columnName)
  }

  /** A successful column pass has the column keys as keys, each row under the key of its name. */
  lemma {:induction false} ColumnsFromContents(rows: seq<ColumnMeta>)
    requires ColumnsFrom(rows).Some?
    ensures forall n :: n in ColumnsFrom(rows).value <==> exists i :: 0 <= i < |rows| && NameKey(rows[i].columnName) == n
    ensures forall i :: 0 <= i < |rows| ==>
      NameKey(rows[i].columnName) in ColumnsFrom(rows).value && ColumnsFrom(rows).value[NameKey(rows[i].columnName)] == rows[i]
  {
    if rows != [] {
      var prefix, col := rows[..|rows| - 1], rows[|rows| - 1];
      ColumnsFromContents(prefix);
      var m := ColumnsFrom(rows).value;
      var key := NameKey(col.columnName);
      assert m == ColumnsFrom(prefix).value[key := col];
      forall n ensures n in m <==> exists i :: 0 <= i < |rows| && NameKey(rows[i].columnName) == n
      {
        if n in m && n != key {
          var i :| 0 <= i < |prefix| && NameKey(prefix[i].columnName) == n;
          assert rows[i] == prefix[i];
        }
        if n == key {
          assert NameKey(rows[|rows| - 1].columnName) == n;
        }
      }
      forall i | 0 <= i < |rows| - 1
        ensures NameKey(rows[i].columnName) in m && m[NameKey(rows[i].columnName)] == rows[i]
      {
        assert rows[i] == prefix[i];
      }
    }
  }

  /** The column pass fails exactly when a column name repeats, in the same or another letter case. */
  lemma {:induction false} ColumnsFromFails(rows: seq<ColumnMeta>)
    ensures ColumnsFrom(rows).None? <==> !DistinctColumnNames(rows)
  {
    if rows != [] {
      var prefix, col := rows[..|rows| - 1], rows[|rows| - 1];
      ColumnsFromFails(prefix);
      if ColumnsFrom(prefix).None? {
        var i, j :| 0 <= i < j < |prefix| && EqualsIgnoreCase(prefix[i].columnName, prefix[j].columnName);
        assert rows[i] == prefix[i] && rows[j] == prefix[j];
      } else {
        ColumnsFromContents(prefix);
        if NameKey(col.columnName) in ColumnsFrom(prefix).value {
          var i :| 0 <= i < |prefix| && NameKey(prefix[i].columnName) == NameKey(col.columnName);
          assert rows[i] == prefix[i];
          assert EqualsIgnoreCase(rows[i].columnName, rows[|rows| - 1].columnName);
        } else {
          forall i, j | 0 <= i < j < |rows|
            ensures !EqualsIgnoreCase(rows[i].columnName, rows[j].columnName)
          {
            assert rows[i] == prefix[i];
            if j < |rows| - 1 {
              assert rows[j] == prefix[j];
            }
          }
        }
      }
    }
  }

  /** A column repeated in another case, such as "id" then "ID", is refused like a repeated name. */
  lemma CaseVariantColumnRefused(tableName: string, id: ColumnMeta, upperId: ColumnMeta,
                                 indexRows: seq<IndexRow>, pkNames: seq<string>)
    requires id.columnName == "id" && upperId.columnName == "ID"
    ensures SchemaFrom(tableName, [id, upperId], indexRows, pkNames) == Failure(DuplicateColumnName)
  {
    assert ToUpper("id") == "ID";
    ColumnsFromFails([id, upperId]);
  }

  /** The rows of one index (by key), in row order. */
  function RowsNamed(rows: seq<IndexRow>, n: string): (group: seq<IndexRow>)
    ensures forall k :: 0 <= k < |group| ==> NameKey(group[k].indexName) == n
    ensures group != [] <==> exists i :: 0 <= i < |rows| && NameKey(rows[i].indexName) == n
  {
    if rows == [] then []
    else
      var prefix := RowsNamed(rows[..|rows| - 1], n);
      assert forall i :: 0 <= i < |rows| - 1 ==> rows[..|rows| - 1][i] == rows[i];
      if NameKey(rows[|rows| - 1].indexName) == n then prefix + [rows[|rows| - 1]] else prefix
  }

  /** An index built from all its rows at once: first row's attributes, one column per row. */
  function GroupedIndex(columns: map<string, ColumnMeta>, group: seq<IndexRow>): (index: IndexMeta)
    requires group != []
  {
    var first := group[0];
    IndexMeta(first.indexName, first.nonUnique, first.ascOrDesc, first.ordinalPosition,
              KindOf(first.nonUnique),
              seq(|group|, k requires 0 <= k < |group| => ColumnOf(columns, group[k])))
  }

  /** Keys of the index names of the rows, null / empty names skipped. */
  function IndexNames(rows: seq<IndexRow>): (keys: set<string>)
  {
    set i | 0 <= i < |rows| && rows[i].indexName != "" :: NameKey(rows[i].indexName)
  }

  /**
   * The index pass holds one index per non-empty index name (letter case
   * aside), built from all the rows of that name in row order.
   */
  lemma {:induction false} IndexesFromAt(columns: map<string, ColumnMeta>, rows: seq<IndexRow>, n: string)
    ensures n in IndexesFrom(columns, rows) <==> n != "" && RowsNamed(rows, n) != []
    ensures n in IndexesFrom(columns, rows) ==>
      IndexesFrom(columns, rows)[n] == GroupedIndex(columns, RowsNamed(rows, n))
  {
    if rows != [] {
      var prefix, row := rows[..|rows| - 1], rows[|rows| - 1];
      IndexesFromAt(columns, prefix, n);
      if NameKey(row.indexName) == n && n != "" {
        var group := RowsNamed(prefix, n);
        if group != [] {
          assert (group + [row])[0] == group[0];
          assert GroupedIndex(columns, group + [row]).values
              == GroupedIndex(columns, group).values + [ColumnOf(columns, row)];
        } else {
          assert group + [row] == [row];
        }
      }
    }
  }

  lemma IndexesFromKeys(columns: map<string, ColumnMeta>, rows: seq<IndexRow>)
    ensures IndexesFrom(columns, rows).Keys == IndexNames(rows)
  {
    forall n ensures n in IndexesFrom(columns, rows) <==> n in IndexNames(rows)
    {
      IndexesFromAt(columns, rows, n);
      if n in IndexNames(rows) {
        var i :| 0 <= i < |rows| && rows[i].indexName != "" && NameKey(rows[i].indexName) == n;
      }
      if n in IndexesFrom(columns, rows) {
        var i :| 0 <= i < |rows| && NameKey(rows[i].indexName) == n;
        assert rows[i].indexName != "";
      }
    }
  }

  lemma {:induction false} FirstRowNamed(rows: seq<IndexRow>, n: string, i: nat)
    requires i < |rows| && NameKey(rows[i].indexName) == n
    requires forall j :: 0 <= j < i ==> NameKey(rows[j].indexName) != n
    ensures RowsNamed(rows, n) != [] && RowsNamed(rows, n)[0] == rows[i]
  {
    if i < |rows| - 1 {
      FirstRowNamed(rows[..|rows| - 1], n, i);
    } else {
      assert RowsNamed(rows[..|rows| - 1], n) == [];
    }
  }

  /**
   * The kind of an index: PRIMARY when a primary-key row names it (in any
   * case), otherwise UNIQUE iff the first row of that index reports NON_UNIQUE
   * false; the index keeps that first row's name as written.
   */
  lemma IndexKind(columns: map<string, ColumnMeta>, rows: seq<IndexRow>, pkNames: seq<string>, i: nat)
    requires i < |rows| && rows[i].indexName != ""
    requires forall j :: 0 <= j < i ==> !EqualsIgnoreCase(rows[j].indexName, rows[i].indexName)
    ensures var n := NameKey(rows[i].indexName);
      var indexes := Retagged(IndexesFrom(columns, rows), pkNames);
      && n in indexes
      && indexes[n].indexType == (if n in PkKeys(pkNames) then Primary else if rows[i].nonUnique then Normal else Unique)
      && indexes[n].nonUnique == rows[i].nonUnique
      && indexes[n].indexName == rows[i].indexName
  {
    FirstRowNamed(rows, NameKey(rows[i].indexName), i);
    IndexesFromAt(columns, rows, NameKey(rows[i].indexName));
  }

  /** An index lists the column of each of its rows, in row order. */
  lemma IndexColumns(columns: map<string, ColumnMeta>, rows: seq<IndexRow>, pkNames: seq<string>, n: string)
    requires n in IndexNames(rows)
    ensures n in IndexesFrom(columns, rows)
    ensures var index := Retagged(IndexesFrom(columns, rows), pkNames)[n];
      && |index.values| == |RowsNamed(rows, n)|
      && forall k :: 0 <= k < |index.values| ==> index.values[k] == ColumnOf(columns, RowsNamed(rows, n)[k])
  {
    IndexesFromKeys(columns, rows);
    IndexesFromAt(columns, rows, n);
  }

  /**
   * The builder fails exactly when a column name repeats (letter case aside)
   * or no index row has a name; otherwise the TableMeta keeps the name as
   * written, every column row under the key of its name, one index per index
   * name, and exactly the indexes a primary-key row names are PRIMARY.
   */
  lemma SchemaOutcome(tableName: string, columnRows: seq<ColumnMeta>, indexRows: seq<IndexRow>, pkNames: seq<string>)
    ensures SchemaFrom(tableName, columnRows, indexRows, pkNames).Failure?
        <==> !DistinctColumnNames(columnRows) || IndexNames(indexRows) == {}
    ensures !DistinctColumnNames(columnRows)
        ==> SchemaFrom(tableName, columnRows, indexRows, pkNames) == Failure(DuplicateColumnName)
    ensures SchemaFrom(tableName, columnRows, indexRows, pkNames).Success? ==>
      var tm := SchemaFrom(tableName, columnRows, indexRows, pkNames).value;
      && tm.tableName == tableName
      && (forall i :: 0 <= i < |columnRows| ==>
            var key := NameKey(columnRows[i].columnName);
            key in tm.allColumns && tm.allColumns[key] == columnRows[i])
      && tm.allIndexes.Keys == IndexNames(indexRows)
      && (forall n :: n in tm.allIndexes ==> (tm.allIndexes[n].indexType == Primary <==> n in PkKeys(pkNames)))
  {
    ColumnsFromFails(columnRows);
    if DistinctColumnNames(columnRows) {
      ColumnsFromContents(columnRows);
      var columns := ColumnsFrom(columnRows).value;
      IndexesFromKeys(columns, indexRows);
      var grouped := IndexesFrom(columns, indexRows);
      forall n | n in grouped
        ensures grouped[n].indexType != Primary
      {
        IndexesFromAt(columns, indexRows, n);
      }
      assert Retagged(grouped, pkNames).Keys == IndexNames(indexRows);
    }
  }

  /** A fetched TableMeta carries the name as requested, before unescaping, and no original name. */
  lemma SchemaKeepsRequestedName(conn: Connection, tableName: string, delEscape: string -> string)
    requires SchemaOf(conn, tableName, delEscape).Success?
    ensures SchemaOf(conn, tableName, delEscape).value.tableName == tableName
    ensures SchemaOf(conn, tableName, delEscape).value.originalTableName.None?
  {
  }
}
