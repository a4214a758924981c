/** The source side: a materialised row is a sequence of cells, each carrying
    its column (name and declared type name) and its raw value. */
module SqliteModel {
  import opened Wrappers
  import opened BsonModel

  /** The storage classes a non-null SQLite value can have. */
  datatype StorageClass = IntegerClass | RealClass | TextClass | BlobClass

  /** The runtime type name the driver reports for a stored value. */
  function StorageClassName(c: StorageClass): string
  {
    match c
    case IntegerClass => "INTEGER"
    case RealClass => "REAL"
    case TextClass => "TEXT"
    case BlobClass => "BLOB"
  }

  /** What each typed read of one cell yields: `None` when the driver cannot
      decode the cell as that type (a failing `try_get`, a panicking `get`). */
  datatype TypedReads = TypedReads(
    asBool: Option<bool>,
    asInt64: Option<int64>,
    asDouble: Option<Double64>,
    asText: Option<string>,
    asDateTime: Option<UtcDateTime>,
    asBytes: Option<seq<byte>>)

  /** A cell for which every typed read fails. */
  const NoReads: TypedReads := TypedReads(None, None, None, None, None, None)

  datatype RawValue = NullValue | Stored(storage: StorageClass, typed: TypedReads)

  datatype Column = Column(name: string, declaredType: string)

  datatype Cell = Cell(column: Column, raw: RawValue)

  /** One row of a result set, its cells in column order. */
  type Row = seq<Cell>

  /** A source table with its rows fully materialised. */
  datatype Table = Table(name: string, rows: seq<Row>)
}
