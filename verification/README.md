# sqlite2mongo — a Dafny model of its coercion and migration core

sqlite2mongo copies every table of an SQLite database into a MongoDB
database, one collection per table and one document per row. This project
models, in Dafny, what `src/main.rs` does between reading rows and writing
documents:

- **Coercion** (`get_field_value`, and the two passes in
  `create_mongo_document`): a cell is turned into a tagged BSON value by an
  exact match on seven type names — `BOOLEAN`, `INTEGER`, `REAL`, `TEXT`,
  `DATETIME`, `BLOB`, `NULL`. A null cell is `Null` at once. Otherwise the
  column's declared type name is dispatched first. If that gives `Null`, the
  cell's runtime storage-class name is dispatched. `BOOLEAN` first tries a
  native boolean read. If that read fails, it reads text, and only `"t"` is
  true. A `BLOB` is always of the generic binary subtype.
- **Document building** (`create_mongo_document`): one entry per column, in
  column order. The key is the column name, or its lower-camel-case form.
- **Collection import** (`create_collection`): one document per row, in row
  order. A live run makes one insert per row. A dry run makes none. Both
  return the number of rows.
- **The run** (`main`): if the destination already holds collections, the
  operator's line must be `yes` once trailing whitespace is removed. Then
  the database is dropped. Any other answer ends the run with success and
  changes nothing. After that, each table is imported in turn.

Modules: `Wrappers` (Option, Result), `BsonModel` (BSON values, and documents
as insertion-ordered maps), `SqliteModel` (cells and typed reads),
`Coercion`, `DocumentBuilder`, `Confirmation` and `Migration` (the
destination as a `Database` class, the import loop and the run).

What the source does by panicking, the model returns as an error.
`unimplemented!` on an unknown type name becomes
`UnrecognizedType(column, typeName)`. A failing `row.get` becomes
`ReadFailed(column, typeName)`. The run wraps either in
`TableFailed(table, cause)` and stops there. Documents already inserted stay
inserted.

The driver's typed reads are a per-cell record, `TypedReads`. It holds one
`Option` per type the code asks for. `None` means the driver refuses that
read: a failing `try_get`, or a `get` that would panic. The lower-camel-case
transform of the `heck` crate is a function parameter, `Casing.LowerCamel`.
Nothing is assumed about it, not even idempotence. When two columns map to
the same key, the document keeps the key at its first position and takes the
later value. That is how an insertion-ordered map (the BSON document)
behaves on `insert` (`BuildDocumentLookup`).

## Behaviour as coded

- The runtime storage class is consulted only when the declared type name is
  exactly `"NULL"`. Only that branch of the dispatch yields `Null`. A
  declared type that disagrees with the stored value is not retried with the
  runtime type: the read fails, as `MismatchDoesNotFallBack` shows. An
  unknown declared name fails in the first pass. It never reaches the second
  pass.
- A runtime storage-class name (`INTEGER`, `REAL`, `TEXT`, `BLOB`) is always
  in the dispatch table and is never `"NULL"`. So the second pass never
  fails on the type name, and a non-null cell never becomes `Null`.
- The confirmation is case-sensitive and removes trailing whitespace only.
  `"Yes"` and `" yes"` do not confirm.
- A dry run counts rows exactly as a live run does and inserts nothing. It
  still drops an existing destination once the operator has confirmed the
  drop (`Migrate`).

## Model

| member | source | states |
|---|---|---|
| `BsonModel.InsertSpec` | src/main.rs:107-111 | inserting a field gives it the new value and leaves every other key's value alone; keys stay unique; a new key goes last, an existing key keeps its position |
| `Coercion.ParseColumnTypeExact` | src/main.rs:117-139 | a type name is recognised exactly when it is one of the seven names, as that type; recognition and naming are inverse |
| `Coercion.TypeNamesAreCaseSensitive` | src/main.rs:117-139 | `"boolean"`, `"Integer"`, `"TEXT "` and `"NUMERIC"` are unknown names and give `UnrecognizedType` with that name |
| `Coercion.FieldValueSpec` | src/main.rs:116-141 | dispatch yields `Null` iff the name is `"NULL"`; a value it yields has the tag the name names; it fails iff the name is unknown (`UnrecognizedType`) or the needed read is refused (`ReadFailed`); a BLOB is of the generic subtype |
| `Coercion.FieldValuePayload` | src/main.rs:118-137 | each branch carries the read payload: a native boolean if that read succeeds, else text `== "t"`; the 64-bit integer, double, string, datetime or bytes read for the other names |
| `Coercion.BooleanTextFlags` | src/main.rs:118-128 | a BOOLEAN column holding the text `"t"` gives `Boolean(true)`; `"f"` or `"true"` gives `Boolean(false)` |
| `Coercion.CoerceCellSpec` | src/main.rs:96-106 | a null cell is `Null` whatever its declared type, and only a null cell is `Null`; a non-null cell uses the declared-type dispatch unless the declared name is `"NULL"`, and the runtime storage class exactly then; an unknown name can only be the declared one |
| `Coercion.RuntimeNamesRecognised` | src/main.rs:102 | every runtime storage-class name is recognised and is not `"NULL"` |
| `Coercion.MismatchDoesNotFallBack` | src/main.rs:100-105 | a cell declared INTEGER that holds text fails with `ReadFailed`, while the same cell declared `NULL` is read as its text |
| `DocumentBuilder.CreateMongoDocument` | src/main.rs:92-114 | the loop over columns builds exactly the document `BuildDocument` describes, stopping at the first cell that fails |
| `DocumentBuilder.BuildDocumentFails` | src/main.rs:94-106 | a row converts iff every cell coerces; otherwise the error is that of the first failing cell in column order |
| `DocumentBuilder.BuildDocumentEntries` | src/main.rs:93-112 | with distinct field names, the document has one entry per column, in column order, each the column's key and coerced value |
| `DocumentBuilder.BuildDocumentLookup` | src/main.rs:107-111 | whatever the keys, the document's keys are unique and are exactly the row's field names, and each key holds the value of the last column mapped to it |
| `DocumentBuilder.UsersRow` | src/main.rs:92-114 | row `(1, "Alice", true)` of `users(id INTEGER, name TEXT, active BOOLEAN)` becomes `{id: Int64(1), name: String("Alice"), active: Boolean(true)}` |
| `Confirmation.TrimEnd` | src/main.rs:39 | the result is a prefix of the input that does not end in whitespace, and only whitespace follows it |
| `Confirmation.ConfirmsDropIff` | src/main.rs:39 | the drop is confirmed iff the input is `yes` followed only by whitespace |
| `Confirmation.ConfirmationExamples` | src/main.rs:36-44 | `"yes"`, `"yes\n"` and `"yes \r\n"` confirm; `"Yes\n"`, `"YES"`, `"no\n"`, `""`, `" yes\n"` and `"yes please\n"` do not |
| `Migration.Database.ListCollectionNames` | src/main.rs:35 | returns the names of the collections the destination holds |
| `Migration.Database.Drop` | src/main.rs:40 | the destination holds no collection afterwards |
| `Migration.Database.InsertOne` | src/main.rs:85 | the document is appended to the named collection, which is created if absent; nothing else changes |
| `Migration.ImportRowsPrefix` | src/main.rs:82-88 | an import yields one document per row, in row order, for the longest prefix of rows that convert, and the error of the first row that does not |
| `Migration.ImportSucceeds` | src/main.rs:82-88 | an import has no failure iff every row converts |
| `Migration.CreateCollection` | src/main.rs:70-90 | returns the number of rows whether or not it is a dry run, or the first row's error; a dry run leaves the destination unchanged; a live run appends the imported documents, in row order, to the table's collection |
| `Migration.ReportCounts` | src/main.rs:47-53 | a run reports one count per table, each its number of rows, iff every table imports; otherwise the first table that fails |
| `Migration.MigratedNames` | src/main.rs:47-53 | when every table imports, a live run creates a collection for each non-empty table and for no other |
| `Migration.MigratedCollections` | src/main.rs:47-53 | with distinct new table names, each non-empty table's collection holds its documents in row order, and collections already there are untouched |
| `Migration.Migrate` | src/main.rs:29-55 | a non-empty destination with an unconfirmed answer ends in `Aborted` with nothing changed; otherwise the run starts from an empty destination, reports the counts or the first failing table, and leaves the destination empty on a dry run or holding the imported documents on a live run |

## Left out

- Opening the SQLite and MongoDB connections, and their errors
  (src/main.rs:31-33). These are I/O.
- The catalog query of `get_tables` (src/main.rs:57-68). The model takes the
  list of tables, rows included, as input. The `LIKE 'sqlite_%'` filter is
  evaluated by SQLite, and in it `_` matches any single character.
- Failures of `fetch_all`, `list_collection_names`, `drop` and `insert_one`
  (the `?` at src/main.rs:35, 40, 81 and 85). The destination is an
  in-memory `Database` that always accepts.
- Migration.CreateCollection: does not model an insert that fails partway
  through a table, because the destination is a sink that always accepts.
- How sqlx decides that a typed read succeeds (type compatibility and
  decoding), and how it maps declared SQL types to type names. Each cell
  carries the outcome of each read, and the declared type name is any
  string.
- Floating-point values and chrono datetimes are opaque: a bit pattern, and
  BSON milliseconds. The conversion of a chrono datetime to BSON milliseconds
  is not modelled.
- Cells are taken by position, while the source looks them up by column name
  (`try_get_raw(field)`, `row.get(field)`). The two agree because a table's
  column names are distinct. The `unwrap` at src/main.rs:96 never fails for
  a column of the row.
- The `heck` lower-camel-case transform is a parameter. Its code is not part
  of this model.
- Argument parsing, printing, reading standard input (the answer is a
  parameter), and the async runtime.
- The row counter is a `nat`, so `usize` overflow is not modelled.
