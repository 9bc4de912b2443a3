/**
 * The structural description of a table that the table-meta cache stores:
 * its columns by name, its indexes by name (each PRIMARY, UNIQUE or NORMAL,
 * with its columns in order), and the names it was requested under.
 * Equality is structural, standing in for TableMeta.equals.
 */
module TableMetaTypes {
  import opened Wrappers

  datatype IndexType = Primary | Unique | Normal

  /** One row of the column listing, reduced to the attributes the model keeps. */
  datatype ColumnMeta = ColumnMeta(
    columnName: string,
    dataType: int,
    dataTypeName: string,
    columnSize: int,
    ordinalPosition: int,
    isAutoincrement: string)

  /**
   * An index: the attributes of the first index row seen for its name, its
   * kind, and the column of every row of that index in row order (None where
   * the row names a column the column listing did not report).
   */
  datatype IndexMeta = IndexMeta(
    indexName: string,
    nonUnique: bool,
    ascOrDesc: string,
    ordinalPosition: int,
    indexType: IndexType,
    values: seq<Option<ColumnMeta>>)

  /** The name the table was requested under, and its original name: None while unset (null). */
  datatype TableMeta = TableMeta(
    tableName: string,
    originalTableName: Option<string>,
    allColumns: map<string, ColumnMeta>,
    allIndexes: map<string, IndexMeta>)

  /** Why a schema fetch failed; the cache sees every kind as one SQLException. */
  datatype FetchError =
    | DuplicateColumnName          // NotSupportYetException while reading columns
    | NoIndexFound                 // ShouldNeverHappenException after reading indexes
    | MalformedTableName           // the name has no segment to take the table from
    | MetadataUnavailable          // connection.getMetaData() failed
}
