/** The type coercion engine: dispatch on a type name and the two-pass
    coercion of one cell (declared column type, then runtime storage class). */
module Coercion {
  import opened Wrappers
  import opened BsonModel
  import opened SqliteModel

  /** The seven type names the dispatch table recognises. */
  datatype ColumnType =
    | BooleanType
    | IntegerType
    | RealType
    | TextType
    | DateTimeType
    | BlobType
    | NullType

  function NameOf(t: ColumnType): string
  {
    match t
    case BooleanType => "BOOLEAN"
    case IntegerType => "INTEGER"
    case RealType => "REAL"
    case TextType => "TEXT"
    case DateTimeType => "DATETIME"
    case BlobType => "BLOB"
    case NullType => "NULL"
  }

  /** Exact, case-sensitive recognition of a type name. */
  function ParseColumnType(name: string): Option<ColumnType>
  {
    match name
    case "BOOLEAN" => Some(BooleanType)
    case "INTEGER" => Some(IntegerType)
    case "REAL" => Some(RealType)
    case "TEXT" => Some(TextType)
    case "DATETIME" => Some(DateTimeType)
    case "BLOB" => Some(BlobType)
    case "NULL" => Some(NullType)
    case _ => None
  }

  /** Recognition and naming are inverse: a name is recognised exactly when
      it is the name of one of the seven types, and then as that type. */
  lemma ParseColumnTypeExact(name: string)
    ensures ParseColumnType(name).Some? ==> NameOf(ParseColumnType(name).value) == name
    ensures forall t :: NameOf(t) == name ==> ParseColumnType(name) == Some(t)
  {
  }

  /** The type name that names the tag of a value. */
  function TagName(v: Bson): string
  {
    match v
    case Null => "NULL"
    case Boolean(_) => "BOOLEAN"
    case Int64(_) => "INTEGER"
    case Double(_) => "REAL"
    case String(_) => "TEXT"
    case DateTime(_) => "DATETIME"
    case Binary(_, _) => "BLOB"
  }

  /** Coercion fails on an unknown type name or on a read the driver refuses;
      both carry the column and the type name. */
  datatype CoercionError =
    | UnrecognizedType(column: string, typeName: string)
    | ReadFailed(column: string, typeName: string)

  /** Whether the reads that type `t` needs give a value. */
  predicate Readable(t: ColumnType, typed: TypedReads)
  {
    match t
    case BooleanType => typed.asBool.Some? || typed.asText.Some?
    case IntegerType => typed.asInt64.Some?
    case RealType => typed.asDouble.Some?
    case TextType => typed.asText.Some?
    case DateTimeType => typed.asDateTime.Some?
    case BlobType => typed.asBytes.Some?
    case NullType => true
  }

  /** One branch of the dispatch table. */
  function ReadAs(t: ColumnType, field: string, typed: TypedReads): Result<Bson, CoercionError>
  {
    match t
    case BooleanType =>
      if typed.asBool.Some? then Ok(Boolean(typed.asBool.value))
      else if typed.asText.Some? then Ok(Boolean(typed.asText.value == "t"))
      else Err(ReadFailed(field, "BOOLEAN"))
    case IntegerType =>
      if typed.asInt64.Some? then Ok(Int64(typed.asInt64.value)) else Err(ReadFailed(field, "INTEGER"))
    case RealType =>
      if typed.asDouble.Some? then Ok(Double(typed.asDouble.value)) else Err(ReadFailed(field, "REAL"))
    case TextType =>
      if typed.asText.Some? then Ok(String(typed.asText.value)) else Err(ReadFailed(field, "TEXT"))
    case DateTimeType =>
      if typed.asDateTime.Some? then Ok(DateTime(typed.asDateTime.value)) else Err(ReadFailed(field, "DATETIME"))
    case BlobType =>
      if typed.asBytes.Some? then Ok(Binary(Generic, typed.asBytes.value)) else Err(ReadFailed(field, "BLOB"))
    case NullType => Ok(Null)
  }

  /** Converts the cell of column `field` according to `typeName`. */
  function FieldValue(field: string, typed: TypedReads, typeName: string): Result<Bson, CoercionError>
  {
    match ParseColumnType(typeName)
    case None => Err(UnrecognizedType(field, typeName))
    case Some(t) => ReadAs(t, field, typed)
  }

  /** Dispatch yields `Null` only for "NULL"; a value it yields carries the
      tag the type name names, and a BLOB is always of the generic binary
      subtype; it fails on an unknown name or on a read the driver refuses,
      and on nothing else. */
  lemma FieldValueSpec(field: string, typed: TypedReads, typeName: string)
    ensures var r := FieldValue(field, typed, typeName);
      && (r == Ok(Null) <==> typeName == "NULL")
      && (r.Ok? ==> TagName(r.value) == typeName)
      && (r.Ok? <==> ParseColumnType(typeName).Some? && Readable(ParseColumnType(typeName).value, typed))
      && (ParseColumnType(typeName).None? ==> r == Err(UnrecognizedType(field, typeName)))
      && (ParseColumnType(typeName).Some? && r.Err? ==> r == Err(ReadFailed(field, typeName)))
      && (r.Ok? && r.value.Binary? ==> r.value.subtype == Generic)
  {
  }

  /** The value a successful read carries, for each type name. */
  lemma FieldValuePayload(field: string, typed: TypedReads, typeName: string)
    ensures typeName == "BOOLEAN" && typed.asBool.Some? ==>
      FieldValue(field, typed, typeName) == Ok(Boolean(typed.asBool.value))
    ensures typeName == "BOOLEAN" && typed.asBool.None? && typed.asText.Some? ==>
      FieldValue(field, typed, typeName) == Ok(Boolean(typed.asText.value == "t"))
    ensures typeName == "INTEGER" && typed.asInt64.Some? ==>
      FieldValue(field, typed, typeName) == Ok(Int64(typed.asInt64.value))
    ensures typeName == "REAL" && typed.asDouble.Some? ==>
      FieldValue(field, typed, typeName) == Ok(Double(typed.asDouble.value))
    ensures typeName == "TEXT" && typed.asText.Some? ==>
      FieldValue(field, typed, typeName) == Ok(String(typed.asText.value))
    ensures typeName == "DATETIME" && typed.asDateTime.Some? ==>
      FieldValue(field, typed, typeName) == Ok(DateTime(typed.asDateTime.value))
    ensures typeName == "BLOB" && typed.asBytes.Some? ==>
      FieldValue(field, typed, typeName) == Ok(Binary(Generic, typed.asBytes.value))
  {
  }

  /** The two-pass coercion of one cell. */
  function CoerceCell(cell: Cell): Result<Bson, CoercionError>
  {
    match cell.raw
    case NullValue => Ok(Null)
    case Stored(storage, typed) =>
      var first := FieldValue(cell.column.name, typed, cell.column.declaredType);
      if first == Ok(Null) then FieldValue(cell.column.name, typed, StorageClassName(storage))
      else first
  }

  /** A null cell is `Null` whatever its declared type, and only a null cell
      is. Otherwise the declared type decides, and the runtime storage class
      is consulted exactly when the declared type name is "NULL"; an unknown
      type name can only be the declared one. */
  lemma CoerceCellSpec(cell: Cell)
    ensures var r := CoerceCell(cell);
      && (cell.raw.NullValue? ==> r == Ok(Null))
      && (r == Ok(Null) <==> cell.raw.NullValue?)
      && (cell.raw.Stored? && cell.column.declaredType != "NULL" ==>
            r == FieldValue(cell.column.name, cell.raw.typed, cell.column.declaredType))
      && (cell.raw.Stored? && cell.column.declaredType == "NULL" ==>
            r == FieldValue(cell.column.name, cell.raw.typed, StorageClassName(cell.raw.storage)))
      && (r.Err? && r.error.UnrecognizedType? ==> r.error.typeName == cell.column.declaredType)
  {
  }

  /** Every runtime storage-class name is in the dispatch table and is not
      "NULL", so the second pass never fails on the type name and never
      yields `Null`. */
  lemma RuntimeNamesRecognised(c: StorageClass)
    ensures ParseColumnType(StorageClassName(c)).Some?
    ensures StorageClassName(c) != "NULL"
  {
  }

  /** Recognition is exact: other spellings of a known name are unknown. */
  lemma TypeNamesAreCaseSensitive(field: string, typed: TypedReads)
    ensures FieldValue(field, typed, "boolean") == Err(UnrecognizedType(field, "boolean"))
    ensures FieldValue(field, typed, "Integer") == Err(UnrecognizedType(field, "Integer"))
    ensures FieldValue(field, typed, "TEXT ") == Err(UnrecognizedType(field, "TEXT "))
    ensures FieldValue(field, typed, "NUMERIC") == Err(UnrecognizedType(field, "NUMERIC"))
  {
  }

  /** A column declared BOOLEAN whose cell holds the text flag "t" or "f". */
  lemma BooleanTextFlags()
    ensures CoerceCell(Cell(Column("active", "BOOLEAN"), Stored(TextClass, NoReads.(asText := Some("t")))))
      == Ok(Boolean(true))
    ensures CoerceCell(Cell(Column("active", "BOOLEAN"), Stored(TextClass, NoReads.(asText := Some("f")))))
      == Ok(Boolean(false))
    ensures CoerceCell(Cell(Column("active", "BOOLEAN"), Stored(TextClass, NoReads.(asText := Some("true")))))
      == Ok(Boolean(false))
  {
  }

  /** A declared type that disagrees with the stored value does not fall back
      to the runtime type: the failed read is the result. */
  lemma MismatchDoesNotFallBack()
    ensures
      var typed := NoReads.(asText := Some("abc"));
      && CoerceCell(Cell(Column("n", "INTEGER"), Stored(TextClass, typed))) == Err(ReadFailed("n", "INTEGER"))
      && CoerceCell(Cell(Column("n", "NULL"), Stored(TextClass, typed))) == Ok(String("abc"))
  {
  }
}
