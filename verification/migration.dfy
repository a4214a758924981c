/** The migration orchestrator: the destination database as a sink of
    inserted documents, the per-table import loop with dry-run accounting,
    and the top-level run with its destructive-replace confirmation. */
module Migration {
  import opened Wrappers
  import opened BsonModel
  import opened SqliteModel
  import opened Coercion
  import opened DocumentBuilder
  import opened Confirmation

  /** The destination database: each collection, by name, with the documents
      inserted into it in insertion order. A name is present once the
      collection exists. */
  class Database {
    var collections: map<string, seq<Document>>

    constructor (existing: map<string, seq<Document>>)
      ensures collections == existing
    {
      collections := existing;
    }

    function Documents(name: string): seq<Document>
      reads this
    {
      if name in collections then collections[name] else []
    }

    method ListCollectionNames() returns (names: set<string>)
      ensures names == collections.Keys
    {
      names := collections.Keys;
    }

    method Drop()
      modifies this
      ensures collections == map[]
    {
      collections := map[];
    }

    /** Inserting into a collection creates it if it does not exist. */
    method InsertOne(name: string, doc: Document)
      modifies this
      ensures collections == old(collections)[name := old(Documents(name)) + [doc]]
    {
      collections := collections[name := Documents(name) + [doc]];
    }
  }

  /** The collections after `docs` are inserted one by one into `name`. */
  function AppendDocuments(m: map<string, seq<Document>>, name: string, docs: seq<Document>): map<string, seq<Document>>
  {
    if docs == [] then m
    else m[name := (if name in m then m[name] else []) + docs]
  }

  /** Inserting one more document extends what was inserted. */
  lemma AppendOneMore(m: map<string, seq<Document>>, name: string, docs: seq<Document>, doc: Document)
    ensures AppendDocuments(m, name, docs + [doc]) ==
      var before := AppendDocuments(m, name, docs);
      before[name := (if name in before then before[name] else []) + [doc]]
  {
    if docs == [] {
      assert docs + [doc] == [doc];
    } else {
      assert ((if name in m then m[name] else []) + docs) + [doc] == (if name in m then m[name] else []) + (docs + [doc]);
    }
  }

  /** What importing a table's rows yields: the documents built before the
      first row that fails, and that row's error if there is one. */
  datatype Import = Import(documents: seq<Document>, failure: Option<CoercionError>)

  function ImportRows(rows: seq<Row>, casing: Casing): Import
  {
    if rows == [] then Import([], None)
    else match BuildDocument(rows[0], casing)
      case Err(e) => Import([], Some(e))
      case Ok(doc) =>
        var rest := ImportRows(rows[1..], casing);
        Import([doc] + rest.documents, rest.failure)
  }

  /** An import keeps the longest prefix of rows that convert, one document
      per row in row order, and stops at the first row that does not. */
  lemma {:induction false} ImportRowsPrefix(rows: seq<Row>, casing: Casing)
    ensures var o := ImportRows(rows, casing);
      && |o.documents| <= |rows|
      && (forall i | 0 <= i < |o.documents| :: BuildDocument(rows[i], casing) == Ok(o.documents[i]))
      && (o.failure.None? <==> |o.documents| == |rows|)
      && (o.failure.Some? ==> BuildDocument(rows[|o.documents|], casing) == Err(o.failure.value))
  {
    if rows != [] && BuildDocument(rows[0], casing).Ok? {
      var rest := rows[1..];
      ImportRowsPrefix(rest, casing);
      var o := ImportRows(rows, casing);
      var r := ImportRows(rest, casing);
      forall i | 0 <= i < |o.documents| ensures BuildDocument(rows[i], casing) == Ok(o.documents[i]) {
        if i > 0 { assert rows[i] == rest[i - 1]; }
      }
      if o.failure.Some? {
        assert rows[|o.documents|] == rest[|r.documents|];
      }
    }
  }

  /** Every row converts exactly when the import has no failure. */
  lemma ImportSucceeds(rows: seq<Row>, casing: Casing)
    ensures ImportRows(rows, casing).failure.None? <==>
      forall i | 0 <= i < |rows| :: BuildDocument(rows[i], casing).Ok?
  {
  }

  /** Imports one table. The result is the number of rows scanned, whether
      or not this is a dry run; only a live run inserts, one document per
      row in row order. */
  method CreateCollection(db: Database, table: Table, casing: Casing, dryRun: bool)
    returns (r: Result<nat, CoercionError>)
    modifies db
    ensures r.Ok? <==> ImportRows(table.rows, casing).failure.None?
    ensures r.Ok? ==> r.value == |table.rows|
    ensures r.Err? ==> ImportRows(table.rows, casing).failure == Some(r.error)
    ensures db.collections ==
      if dryRun then old(db.collections)
      else AppendDocuments(old(db.collections), table.name, ImportRows(table.rows, casing).documents)
  {
    var rowCount := 0;
    ghost var inserted: seq<Document> := [];
    for i := 0 to |table.rows|
      invariant rowCount == i
      invariant var rest := ImportRows(table.rows[i..], casing);
        ImportRows(table.rows, casing) == Import(inserted + rest.documents, rest.failure)
      invariant db.collections ==
        if dryRun then old(db.collections)
        else AppendDocuments(old(db.collections), table.name, inserted)
    {
      assert table.rows[i..][0] == table.rows[i] && table.rows[i..][1..] == table.rows[i + 1..];
      var doc := CreateMongoDocument(table.rows[i], casing);
      if doc.Err? {
        assert inserted + [] == inserted;
        return Err(doc.error);
      }
      if !dryRun {
        AppendOneMore(old(db.collections), table.name, inserted, doc.value);
        db.InsertOne(table.name, doc.value);
      }
      inserted := inserted + [doc.value];
      rowCount := rowCount + 1;
    }
    assert table.rows[|table.rows|..] == [];
    assert inserted + [] == inserted;
    return Ok(rowCount);
  }

  datatype MigrationError = TableFailed(table: string, cause: CoercionError)

  /** The per-table row counts of a run, or the error of the first table
      that fails. */
  function Report(tables: seq<Table>, casing: Casing): Result<seq<nat>, MigrationError>
  {
    if tables == [] then Ok([])
    else match ImportRows(tables[0].rows, casing).failure
      case Some(e) => Err(TableFailed(tables[0].name, e))
      case None =>
        match Report(tables[1..], casing)
        case Err(e) => Err(e)
        case Ok(counts) => Ok([|tables[0].rows|] + counts)
  }

  /** A run reports one count per table, each the table's number of rows,
      exactly when every table imports without failure; otherwise it reports
      the first failing table. */
  lemma {:induction false} ReportCounts(tables: seq<Table>, casing: Casing)
    ensures Report(tables, casing).Ok? <==>
      forall i | 0 <= i < |tables| :: ImportRows(tables[i].rows, casing).failure.None?
    ensures Report(tables, casing).Ok? ==>
      && |Report(tables, casing).value| == |tables|
      && forall i | 0 <= i < |tables| :: Report(tables, casing).value[i] == |tables[i].rows|
    ensures Report(tables, casing).Err? ==>
      exists k | 0 <= k < |tables| ::
        && ImportRows(tables[k].rows, casing).failure.Some?
        && Report(tables, casing).error == TableFailed(tables[k].name, ImportRows(tables[k].rows, casing).failure.value)
        && forall j | 0 <= j < k :: ImportRows(tables[j].rows, casing).failure.None?
  {
    if tables != [] && ImportRows(tables[0].rows, casing).failure.None? {
      var rest := tables[1..];
      ReportCounts(rest, casing);
      assert forall i | 0 <= i < |rest| :: rest[i] == tables[i + 1];
      if Report(tables, casing).Ok? {
        forall i | 0 <= i < |tables| ensures Report(tables, casing).value[i] == |tables[i].rows| {
          if i > 0 { assert tables[i] == rest[i - 1]; }
        }
      } else {
        var k :| 0 <= k < |rest|
          && ImportRows(rest[k].rows, casing).failure.Some?
          && Report(rest, casing).error == TableFailed(rest[k].name, ImportRows(rest[k].rows, casing).failure.value)
          && forall j | 0 <= j < k :: ImportRows(rest[j].rows, casing).failure.None?;
        assert tables[k + 1] == rest[k];
        forall j | 0 <= j < k + 1 ensures ImportRows(tables[j].rows, casing).failure.None? {
          if j > 0 { assert tables[j] == rest[j - 1]; }
        }
      }
      if forall i | 0 <= i < |tables| :: ImportRows(tables[i].rows, casing).failure.None? {
        assert forall i | 0 <= i < |rest| :: ImportRows(rest[i].rows, casing).failure.None?;
      }
    }
  }

  /** The collections after a live run that starts from `m`: each table's
      imported documents appended in turn, up to and including the first
      table that fails. */
  function Migrated(m: map<string, seq<Document>>, tables: seq<Table>, casing: Casing): map<string, seq<Document>>
    decreases |tables|
  {
    if tables == [] then m
    else
      var o := ImportRows(tables[0].rows, casing);
      var next := AppendDocuments(m, tables[0].name, o.documents);
      if o.failure.Some? then next else Migrated(next, tables[1..], casing)
  }

  /** Table names are distinct, as they are in a database schema. */
  predicate DistinctNames(tables: seq<Table>)
  {
    forall i, j | 0 <= i < j < |tables| :: tables[i].name != tables[j].name
  }

  /** Appending a non-empty batch to a collection that does not exist yet
      creates it with exactly that batch. */
  lemma AppendToNew(m: map<string, seq<Document>>, name: string, docs: seq<Document>)
    requires name !in m
    ensures AppendDocuments(m, name, docs).Keys == if docs == [] then m.Keys else m.Keys + {name}
    ensures docs != [] ==> AppendDocuments(m, name, docs)[name] == docs
    ensures forall n | n in m :: AppendDocuments(m, name, docs)[n] == m[n]
  {
  }

  /** The names of the tables that have at least one row. */
  function NonEmptyNames(tables: seq<Table>): set<string>
  {
    set i | 0 <= i < |tables| && tables[i].rows != [] :: tables[i].name
  }

  lemma NonEmptyNamesCons(tables: seq<Table>)
    requires tables != []
    ensures NonEmptyNames(tables) ==
      (if tables[0].rows != [] then {tables[0].name} else {}) + NonEmptyNames(tables[1..])
  {
  }

  /** The tables after the first keep distinct names, none of them that of
      the first table. */
  lemma DistinctNamesTail(tables: seq<Table>)
    requires tables != [] && DistinctNames(tables)
    ensures DistinctNames(tables[1..])
    ensures forall i | 0 <= i < |tables[1..]| :: tables[1..][i].name != tables[0].name
  {
  }

  /** When every table imports, a live run creates a collection for each
      non-empty table and for no other. */
  lemma {:induction false} MigratedNames(m: map<string, seq<Document>>, tables: seq<Table>, casing: Casing)
    requires forall i | 0 <= i < |tables| :: ImportRows(tables[i].rows, casing).failure.None?
    ensures Migrated(m, tables, casing).Keys == m.Keys + NonEmptyNames(tables)
    decreases |tables|
  {
    if tables != [] {
      var t := tables[0];
      var rest := tables[1..];
      var o := ImportRows(t.rows, casing);
      ImportRowsPrefix(t.rows, casing);
      assert o.documents == [] <==> t.rows == [];
      assert forall i | 0 <= i < |rest| :: rest[i] == tables[i + 1];
      MigratedNames(AppendDocuments(m, t.name, o.documents), rest, casing);
      NonEmptyNamesCons(tables);
    }
  }

  /** When every table imports into distinct, new names, a live run leaves
      collections already there as they were, and gives each non-empty table
      a collection of the same name holding one document per row, in row
      order. */
  lemma {:induction false} MigratedCollections(m: map<string, seq<Document>>, tables: seq<Table>, casing: Casing)
    requires DistinctNames(tables)
    requires forall i | 0 <= i < |tables| :: tables[i].name !in m
    requires forall i | 0 <= i < |tables| :: ImportRows(tables[i].rows, casing).failure.None?
    ensures forall name | name in m :: name in Migrated(m, tables, casing) && Migrated(m, tables, casing)[name] == m[name]
    ensures forall i | 0 <= i < |tables| && tables[i].rows != [] ::
      && tables[i].name in Migrated(m, tables, casing)
      && Migrated(m, tables, casing)[tables[i].name] == ImportRows(tables[i].rows, casing).documents
    decreases |tables|
  {
    if tables != [] {
      var t := tables[0];
      var rest := tables[1..];
      var o := ImportRows(t.rows, casing);
      ImportRowsPrefix(t.rows, casing);
      assert o.documents == [] <==> t.rows == [];
      var next := AppendDocuments(m, t.name, o.documents);
      AppendToNew(m, t.name, o.documents);
      DistinctNamesTail(tables);
      assert forall i | 0 <= i < |rest| :: rest[i] == tables[i + 1];
      MigratedCollections(next, rest, casing);
      var after := Migrated(next, rest, casing);
      assert Migrated(m, tables, casing) == after;
      forall i | 0 <= i < |tables| && tables[i].rows != []
        ensures tables[i].name in after && after[tables[i].name] == ImportRows(tables[i].rows, casing).documents
      {
        if i > 0 { assert rest[i - 1] == tables[i]; }
      }
    }
  }

  /** How a run ends: aborted at the confirmation prompt, or completed with
      the row count of each table. */
  datatype Outcome = Aborted | Completed(rowCounts: seq<nat>)

  /** The whole run. `input` is the line the operator types, read only when
      the destination already holds collections. */
  method Migrate(db: Database, tables: seq<Table>, input: string, casing: Casing, dryRun: bool)
    returns (r: Result<Outcome, MigrationError>)
    modifies db
    ensures old(db.collections) != map[] && !ConfirmsDrop(input) ==>
      r == Ok(Aborted) && db.collections == old(db.collections)
    ensures old(db.collections) == map[] || ConfirmsDrop(input) ==>
      && r == (match Report(tables, casing)
               case Ok(counts) => Ok(Completed(counts))
               case Err(e) => Err(e))
      && db.collections == (if dryRun then map[] else Migrated(map[], tables, casing))
  {
    var names := db.ListCollectionNames();
    if |names| > 0 {
      if TrimEnd(input) == "yes" {
        db.Drop();
      } else {
        return Ok(Aborted);
      }
    } else {
      assert db.collections == map[];
    }
    var counts: seq<nat> := [];
    assert tables[0..] == tables;
    assert forall rest: seq<nat> :: counts + rest == rest;
    for i := 0 to |tables|
      invariant Report(tables, casing) ==
        match Report(tables[i..], casing)
        case Ok(rest) => Ok(counts + rest)
        case Err(e) => Err(e)
      invariant dryRun ==> db.collections == map[]
      invariant !dryRun ==> Migrated(db.collections, tables[i..], casing) == Migrated(map[], tables, casing)
    {
      assert tables[i..][0] == tables[i] && tables[i..][1..] == tables[i + 1..];
      var n := CreateCollection(db, tables[i], casing, dryRun);
      if n.Err? {
        return Err(TableFailed(tables[i].name, n.error));
      }
      assert forall rest: seq<nat> :: counts + ([n.value] + rest) == (counts + [n.value]) + rest;
      counts := counts + [n.value];
    }
    assert tables[|tables|..] == [];
    assert counts + [] == counts;
    return Ok(Completed(counts));
  }
}
