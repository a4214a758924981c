/** The document builder: one row becomes one document, one field per column
    in column order, each value coerced with the two-pass engine. */
module DocumentBuilder {
  import opened Wrappers
  import opened BsonModel
  import opened SqliteModel
  import opened Coercion

  /** How column names become field names: unchanged, or through the
      lower-camel-case transform (a foreign function, given here). */
  datatype Casing = AsIs | LowerCamel(transform: string -> string)

  function FieldKey(name: string, casing: Casing): string
  {
    match casing
    case AsIs => name
    case LowerCamel(transform) => transform(name)
  }

  function CellKey(cell: Cell, casing: Casing): string
  {
    FieldKey(cell.column.name, casing)
  }

  /** Inserts the coerced cells into `doc`, stopping at the first failure. */
  function BuildFrom(doc: Document, cells: seq<Cell>, casing: Casing): Result<Document, CoercionError>
    decreases |cells|
  {
    if cells == [] then Ok(doc)
    else match CoerceCell(cells[0])
      case Err(e) => Err(e)
      case Ok(v) => BuildFrom(Insert(doc, CellKey(cells[0], casing), v), cells[1..], casing)
  }

  function BuildDocument(row: Row, casing: Casing): Result<Document, CoercionError>
  {
    BuildFrom(EmptyDocument, row, casing)
  }

  method CreateMongoDocument(row: Row, casing: Casing) returns (r: Result<Document, CoercionError>)
    ensures r == BuildDocument(row, casing)
  {
    var doc := EmptyDocument;
    for i := 0 to |row|
      invariant BuildFrom(doc, row[i..], casing) == BuildDocument(row, casing)
    {
      assert row[i..][0] == row[i] && row[i..][1..] == row[i + 1..];
      var value := CoerceCell(row[i]);
      if value.Err? {
        return Err(value.error);
      }
      doc := Insert(doc, CellKey(row[i], casing), value.value);
    }
    return Ok(doc);
  }

  /** No two columns of the row map to the same field name. */
  predicate DistinctKeys(row: Row, casing: Casing)
  {
    forall i, j | 0 <= i < j < |row| :: CellKey(row[i], casing) != CellKey(row[j], casing)
  }

  /** The build succeeds exactly when every cell coerces. */
  lemma {:induction false} BuildFromSucceeds(doc: Document, cells: seq<Cell>, casing: Casing)
    ensures BuildFrom(doc, cells, casing).Ok? <==> forall i | 0 <= i < |cells| :: CoerceCell(cells[i]).Ok?
    decreases |cells|
  {
    if cells != [] && CoerceCell(cells[0]).Ok? {
      var rest := cells[1..];
      BuildFromSucceeds(Insert(doc, CellKey(cells[0], casing), CoerceCell(cells[0]).value), rest, casing);
      assert forall i | 0 <= i < |rest| :: rest[i] == cells[i + 1];
    }
  }

  /** A failed build reports the error of the first cell that fails. */
  lemma {:induction false} BuildFromFirstError(doc: Document, cells: seq<Cell>, casing: Casing)
    requires BuildFrom(doc, cells, casing).Err?
    ensures exists i | 0 <= i < |cells| ::
      && CoerceCell(cells[i]) == Err(BuildFrom(doc, cells, casing).error)
      && forall j | 0 <= j < i :: CoerceCell(cells[j]).Ok?
    decreases |cells|
  {
    var e := BuildFrom(doc, cells, casing).error;
    if CoerceCell(cells[0]).Err? {
      assert CoerceCell(cells[0]) == Err(e);
    } else {
      var rest := cells[1..];
      BuildFromFirstError(Insert(doc, CellKey(cells[0], casing), CoerceCell(cells[0]).value), rest, casing);
      var i :| 0 <= i < |rest| && CoerceCell(rest[i]) == Err(e) && forall j | 0 <= j < i :: CoerceCell(rest[j]).Ok?;
      assert cells[i + 1] == rest[i];
      forall j | 0 <= j < i + 1 ensures CoerceCell(cells[j]).Ok? {
        if j > 0 { assert cells[j] == rest[j - 1]; }
      }
    }
  }

  /** A row converts exactly when each of its cells does; otherwise the
      error is that of the first cell, in column order, that fails. */
  lemma BuildDocumentFails(row: Row, casing: Casing)
    ensures BuildDocument(row, casing).Ok? <==> forall i | 0 <= i < |row| :: CoerceCell(row[i]).Ok?
    ensures BuildDocument(row, casing).Err? ==>
      exists i | 0 <= i < |row| ::
        && CoerceCell(row[i]) == Err(BuildDocument(row, casing).error)
        && forall j | 0 <= j < i :: CoerceCell(row[j]).Ok?
  {
    BuildFromSucceeds(EmptyDocument, row, casing);
    if BuildDocument(row, casing).Err? {
      BuildFromFirstError(EmptyDocument, row, casing);
    }
  }

  /** The entries of cells that all coerce, one per cell, in order. */
  function CellEntries(cells: seq<Cell>, casing: Casing): seq<(string, Bson)>
    requires forall i | 0 <= i < |cells| :: CoerceCell(cells[i]).Ok?
  {
    if cells == [] then []
    else [(CellKey(cells[0], casing), CoerceCell(cells[0]).value)] + CellEntries(cells[1..], casing)
  }

  lemma {:induction false} CellEntriesAt(cells: seq<Cell>, casing: Casing)
    requires forall i | 0 <= i < |cells| :: CoerceCell(cells[i]).Ok?
    ensures |CellEntries(cells, casing)| == |cells|
    ensures forall i | 0 <= i < |cells| ::
      CellEntries(cells, casing)[i] == (CellKey(cells[i], casing), CoerceCell(cells[i]).value)
    decreases |cells|
  {
    if cells != [] {
      var rest := cells[1..];
      assert forall i | 0 <= i < |rest| :: rest[i] == cells[i + 1];
      CellEntriesAt(rest, casing);
    }
  }

  /** Dropping the first cell keeps the field names distinct, and none of
      the remaining ones is the first cell's. */
  lemma DistinctKeysTail(cells: seq<Cell>, casing: Casing)
    requires cells != [] && DistinctKeys(cells, casing)
    ensures DistinctKeys(cells[1..], casing)
    ensures forall i | 0 <= i < |cells| - 1 :: CellKey(cells[1..][i], casing) != CellKey(cells[0], casing)
  {
  }

  /** With distinct field names, the coerced cells are appended, in column
      order, after the entries already there. */
  lemma {:induction false} BuildFromEntries(doc: Document, cells: seq<Cell>, casing: Casing)
    requires DistinctKeys(cells, casing)
    requires forall i | 0 <= i < |cells| :: CellKey(cells[i], casing) !in doc.Keys()
    requires forall i | 0 <= i < |cells| :: CoerceCell(cells[i]).Ok?
    ensures BuildFrom(doc, cells, casing) == Ok(Document(doc.entries + CellEntries(cells, casing)))
    decreases |cells|
  {
    if cells != [] {
      var key := CellKey(cells[0], casing);
      var value := CoerceCell(cells[0]).value;
      var next := Insert(doc, key, value);
      InsertSpec(doc, key, value);
      var rest := cells[1..];
      assert next.entries == doc.entries + [(key, value)] && next.Keys() == doc.Keys() + {key};
      assert BuildFrom(doc, cells, casing) == BuildFrom(next, rest, casing);
      DistinctKeysTail(cells, casing);
      assert forall i | 0 <= i < |rest| :: CellKey(rest[i], casing) !in next.Keys() && CoerceCell(rest[i]).Ok? by {
        assert forall i | 0 <= i < |rest| :: rest[i] == cells[i + 1];
      }
      BuildFromEntries(next, rest, casing);
      var later := CellEntries(rest, casing);
      assert CellEntries(cells, casing) == [(key, value)] + later;
      assert doc.entries + ([(key, value)] + later) == (doc.entries + [(key, value)]) + later;
    } else {
      assert doc.entries + [] == doc.entries;
    }
  }

  /** A row whose cells all coerce and whose field names are distinct gives
      a document with one entry per column, in column order, holding the
      coerced value of that column. */
  lemma BuildDocumentEntries(row: Row, casing: Casing)
    requires DistinctKeys(row, casing)
    requires forall i | 0 <= i < |row| :: CoerceCell(row[i]).Ok?
    ensures BuildDocument(row, casing).Ok?
    ensures var doc := BuildDocument(row, casing).value;
      && |doc.entries| == |row|
      && forall i | 0 <= i < |row| :: doc.entries[i] == (CellKey(row[i], casing), CoerceCell(row[i]).value)
  {
    BuildFromEntries(EmptyDocument, row, casing);
    CellEntriesAt(row, casing);
    assert EmptyDocument.entries + CellEntries(row, casing) == CellEntries(row, casing);
  }

  /** The field names a row's columns map to. */
  function RowKeys(cells: seq<Cell>, casing: Casing): set<string>
  {
    set i | 0 <= i < |cells| :: CellKey(cells[i], casing)
  }

  /** Column `i` is the last column mapped to its field name. */
  predicate LastWithKey(cells: seq<Cell>, casing: Casing, i: nat)
    requires i < |cells|
  {
    forall j | i < j < |cells| :: CellKey(cells[j], casing) != CellKey(cells[i], casing)
  }

  lemma RowKeysCons(cells: seq<Cell>, casing: Casing)
    requires cells != []
    ensures RowKeys(cells, casing) == {CellKey(cells[0], casing)} + RowKeys(cells[1..], casing)
  {
  }

  /** Whatever the field names, a built document has unique keys, one for
      each field name the columns map to. */
  lemma {:induction false} BuildFromKeys(doc: Document, cells: seq<Cell>, casing: Casing)
    requires doc.Valid()
    requires BuildFrom(doc, cells, casing).Ok?
    ensures BuildFrom(doc, cells, casing).value.Valid()
    ensures BuildFrom(doc, cells, casing).value.Keys() == doc.Keys() + RowKeys(cells, casing)
    decreases |cells|
  {
    if cells != [] {
      var next := Insert(doc, CellKey(cells[0], casing), CoerceCell(cells[0]).value);
      InsertSpec(doc, CellKey(cells[0], casing), CoerceCell(cells[0]).value);
      BuildFromKeys(next, cells[1..], casing);
      RowKeysCons(cells, casing);
    }
  }

  /** A column's value is kept unless a later column maps to the same field
      name; the later value then replaces it. */
  lemma {:induction false} BuildFromLookup(doc: Document, cells: seq<Cell>, casing: Casing, i: nat)
    requires forall j | 0 <= j < |cells| :: CoerceCell(cells[j]).Ok?
    requires i < |cells| && LastWithKey(cells, casing, i)
    ensures BuildFrom(doc, cells, casing).Ok?
    ensures BuildFrom(doc, cells, casing).value.Get(CellKey(cells[i], casing)) == Some(CoerceCell(cells[i]).value)
    decreases |cells|
  {
    BuildFromSucceeds(doc, cells, casing);
    var key := CellKey(cells[0], casing);
    var next := Insert(doc, key, CoerceCell(cells[0]).value);
    InsertSpec(doc, key, CoerceCell(cells[0]).value);
    var rest := cells[1..];
    BuildFromSucceeds(next, rest, casing);
    if i > 0 {
      assert rest[i - 1] == cells[i];
      forall j | i - 1 < j < |rest| ensures CellKey(rest[j], casing) != CellKey(rest[i - 1], casing) {
        assert rest[j] == cells[j + 1];
      }
      BuildFromLookup(next, rest, casing, i - 1);
    } else {
      forall j | 0 <= j < |rest| ensures CellKey(rest[j], casing) != key {
        assert rest[j] == cells[j + 1];
      }
      BuildFromKeepsAbsent(next, rest, casing, key);
    }
  }

  /** A built document has unique keys, exactly the field names of the row,
      and under each field name the value of the last column mapped to it. */
  lemma BuildDocumentLookup(row: Row, casing: Casing)
    requires forall i | 0 <= i < |row| :: CoerceCell(row[i]).Ok?
    ensures BuildDocument(row, casing).Ok?
    ensures BuildDocument(row, casing).value.Valid()
    ensures BuildDocument(row, casing).value.Keys() == RowKeys(row, casing)
    ensures forall i | 0 <= i < |row| && LastWithKey(row, casing, i) ::
      BuildDocument(row, casing).value.Get(CellKey(row[i], casing)) == Some(CoerceCell(row[i]).value)
  {
    BuildFromSucceeds(EmptyDocument, row, casing);
    BuildFromKeys(EmptyDocument, row, casing);
    forall i | 0 <= i < |row| && LastWithKey(row, casing, i)
      ensures BuildDocument(row, casing).value.Get(CellKey(row[i], casing)) == Some(CoerceCell(row[i]).value)
    {
      BuildFromLookup(EmptyDocument, row, casing, i);
    }
  }

  /** A key no remaining cell maps to keeps its value. */
  lemma {:induction false} BuildFromKeepsAbsent(doc: Document, cells: seq<Cell>, casing: Casing, key: string)
    requires BuildFrom(doc, cells, casing).Ok?
    requires forall i | 0 <= i < |cells| :: CellKey(cells[i], casing) != key
    ensures BuildFrom(doc, cells, casing).value.Get(key) == doc.Get(key)
    decreases |cells|
  {
    if cells != [] {
      var next := Insert(doc, CellKey(cells[0], casing), CoerceCell(cells[0]).value);
      InsertSpec(doc, CellKey(cells[0], casing), CoerceCell(cells[0]).value);
      forall i | 0 <= i < |cells[1..]| ensures CellKey(cells[1..][i], casing) != key {
        assert cells[1..][i] == cells[i + 1];
      }
      BuildFromKeepsAbsent(next, cells[1..], casing, key);
    }
  }

  /** Row users(id INTEGER, name TEXT, active BOOLEAN) = (1, "Alice", true). */
  lemma UsersRow()
    ensures
      var row := [
        Cell(Column("id", "INTEGER"), Stored(IntegerClass, NoReads.(asInt64 := Some(1)))),
        Cell(Column("name", "TEXT"), Stored(TextClass, NoReads.(asText := Some("Alice")))),
        Cell(Column("active", "BOOLEAN"), Stored(IntegerClass, NoReads.(asBool := Some(true), asInt64 := Some(1))))
      ];
      BuildDocument(row, AsIs)
        == Ok(Document([("id", Int64(1)), ("name", String("Alice")), ("active", Boolean(true))]))
  {
    var row := [
      Cell(Column("id", "INTEGER"), Stored(IntegerClass, NoReads.(asInt64 := Some(1)))),
      Cell(Column("name", "TEXT"), Stored(TextClass, NoReads.(asText := Some("Alice")))),
      Cell(Column("active", "BOOLEAN"), Stored(IntegerClass, NoReads.(asBool := Some(true), asInt64 := Some(1))))
    ];
    var expected := [("id", Int64(1)), ("name", String("Alice")), ("active", Boolean(true))];
    assert CoerceCell(row[0]) == Ok(Int64(1));
    assert CoerceCell(row[1]) == Ok(String("Alice"));
    assert CoerceCell(row[2]) == Ok(Boolean(true));
    BuildDocumentEntries(row, AsIs);
    var doc := BuildDocument(row, AsIs).value;
    assert doc.entries == expected;
  }
}
