/**
 controllers/utils/have_columns_matcher.go: an observer of the catalog that shares no code with the table
 controller. It reads rows of a join, in any order and with repeats, and compares them with a specification.
 */
module HaveColumns {
  import opened SqlText
  import opened Specs
  import opened TableSql
  import opened Postgres
  import opened TableHistory

  datatype Row = Row(columnName: string, isNullable: bool, isPrimaryKey: bool)

  /** The rows' nullability by column; a later row overrides an earlier one. */
  function NullableByName(rows: seq<Row>): map<string, bool> {
    if rows == [] then map[]
    else
      var last := rows[|rows| - 1];
      NullableByName(rows[..|rows| - 1])[last.columnName := last.isNullable]
  }

  function PrimaryKeys(rows: seq<Row>): set<string> {
    set r | r in rows && r.isPrimaryKey :: r.columnName
  }

  predicate ColumnMatches(c: Column, nullable: map<string, bool>, keys: set<string>) {
    c.name in nullable && nullable[c.name] == c.nullable && (c.primaryKey <==> c.name in keys)
  }

  predicate Accepts(columns: seq<Column>, rows: seq<Row>) {
    forall i :: 0 <= i < |columns| ==> ColumnMatches(columns[i], NullableByName(rows), PrimaryKeys(rows))
  }

  class HaveColumnsMatcher {
    const columns: seq<Column>
    var columnsFromPg: map<string, bool>
    var primaryKeysFromPg: set<string>

    constructor (columns: seq<Column>)
      ensures this.columns == columns
    {
      this.columns := columns;
      this.columnsFromPg, this.primaryKeysFromPg := map[], {};
    }

    /** The callback's work, row by row. */
    method FetchColumnData(rows: seq<Row>)
      modifies this
      ensures columnsFromPg == NullableByName(rows) && primaryKeysFromPg == PrimaryKeys(rows)
    {
      columnsFromPg, primaryKeysFromPg := map[], {};
      for i := 0 to |rows|
        invariant columnsFromPg == NullableByName(rows[..i]) && primaryKeysFromPg == PrimaryKeys(rows[..i])
      {
        assert rows[..i + 1][..i] == rows[..i];
        columnsFromPg := columnsFromPg[rows[i].columnName := rows[i].isNullable];
        if rows[i].isPrimaryKey {
          primaryKeysFromPg := primaryKeysFromPg + {rows[i].columnName};
        }
      }
      assert rows[..|rows|] == rows;
    }

    method Match(rows: seq<Row>) returns (success: bool)
      modifies this
      ensures success <==> Accepts(columns, rows)
    {
      FetchColumnData(rows);
      for i := 0 to |columns|
        invariant forall j :: 0 <= j < i ==> ColumnMatches(columns[j], columnsFromPg, primaryKeysFromPg)
      {
        var column := columns[i];
        if column.name !in columnsFromPg {
          return false;
        }
        if columnsFromPg[column.name] != column.nullable {
          return false;
        }
        if column.primaryKey != (column.name in primaryKeysFromPg) {
          return false;
        }
      }
      return true;
    }
  }

  /**
   What the query may return for a table: for each column asked for at least one row, for each of those in
   the primary key at least one row that says so, possibly others that do not, and nothing untrue.
   */
  predicate RowsOf(t: TableEntry, asked: set<string>, rows: seq<Row>) {
    && (forall r :: r in rows ==>
          r.columnName in asked && (r.isPrimaryKey ==> r.columnName in t.key) &&
          exists c :: c in t.columns && c.name == r.columnName && c.nullable == r.isNullable)
    && (forall c :: c in t.columns && c.name in asked ==> exists r :: r in rows && r.columnName == c.name)
    && (forall n :: n in t.key && n in asked ==> exists r :: r in rows && r.columnName == n && r.isPrimaryKey)
  }

  predicate ApartRows(columns: seq<ColumnEntry>) {
    forall c, d :: c in columns && d in columns && c.name == d.name ==> c == d
  }

  lemma {:induction false} NullableByNameIs(rows: seq<Row>)
    ensures forall n :: n in NullableByName(rows) <==> exists r :: r in rows && r.columnName == n
    ensures forall n :: n in NullableByName(rows) ==>
              exists r :: r in rows && r.columnName == n && r.isNullable == NullableByName(rows)[n]
  {
    if rows != [] {
      var shorter, last := rows[..|rows| - 1], rows[|rows| - 1];
      NullableByNameIs(shorter);
      assert forall r :: r in rows <==> r in shorter || r == last;
      assert last in rows;
    }
  }

  /** The table has this column as declared. Types are not compared, as in the original. */
  predicate Has(t: TableEntry, column: Column) {
    && (exists c :: c in t.columns && c.name == column.name && c.nullable == column.nullable)
    && (column.primaryKey <==> column.name in t.key)
  }

  lemma ColumnObserved(t: TableEntry, asked: set<string>, rows: seq<Row>, column: Column)
    requires ApartRows(t.columns) && RowsOf(t, asked, rows) && column.name in asked
    ensures ColumnMatches(column, NullableByName(rows), PrimaryKeys(rows)) <==> Has(t, column)
  {
    NullableByNameIs(rows);
    assert column.name in PrimaryKeys(rows) <==> column.name in t.key;
    if column.name in NullableByName(rows) {
      var r :| r in rows && r.columnName == column.name && r.isNullable == NullableByName(rows)[column.name];
      var c :| c in t.columns && c.name == r.columnName && c.nullable == r.isNullable;
    }
  }

  /**
   The observer accepts exactly the specifications whose columns the table has, with the same nullability
   and the same place in or outside the primary key. Order, repeats and other columns do not matter.
   */
  lemma ObserverIsExact(t: TableEntry, columns: seq<Column>, rows: seq<Row>)
    requires ApartRows(t.columns) && RowsOf(t, NameSet(columns), rows)
    ensures Accepts(columns, rows) <==> forall i :: 0 <= i < |columns| ==> Has(t, columns[i])
  {
    forall i | 0 <= i < |columns|
      ensures ColumnMatches(columns[i], NullableByName(rows), PrimaryKeys(rows)) <==> Has(t, columns[i])
    {
      assert columns[i] in columns;
      ColumnObserved(t, NameSet(columns), rows, columns[i]);
    }
  }

  function Fresh(columns: seq<Column>): TableEntry {
    TableEntry(Rows(columns, KeyOf(columns)), KeyOf(columns))
  }

  lemma InKey(columns: seq<Column>, i: nat)
    requires PlainColumns(columns) && DistinctNames(columns) && i < |columns|
    ensures columns[i].primaryKey <==> columns[i].name in KeyOf(columns)
    ensures Fresh(columns).columns[i].name == columns[i].name
  {
    KeyNamesAre(columns);
    StripNulFree(columns[i].name);
    if columns[i].name in KeyNames(columns) {
      var j :| 0 <= j < |columns| && columns[j].primaryKey && columns[j].name == columns[i].name;
      assert i == j;
    }
  }

  lemma FreshRowsApart(columns: seq<Column>)
    requires PlainColumns(columns) && DistinctNames(columns)
    ensures ApartRows(Fresh(columns).columns)
  {
    var rows := Fresh(columns).columns;
    forall a, b | a in rows && b in rows && a.name == b.name
      ensures a == b
    {
      var i :| 0 <= i < |columns| && rows[i] == a;
      var j :| 0 <= j < |columns| && rows[j] == b;
      InKey(columns, i);
      InKey(columns, j);
    }
  }

  lemma FreshHas(columns: seq<Column>, i: nat)
    requires PlainColumns(columns) && DistinctNames(columns) && i < |columns|
    ensures Has(Fresh(columns), columns[i]) <==> !(columns[i].primaryKey && columns[i].nullable)
  {
    var t := Fresh(columns);
    InKey(columns, i);
    FreshRowsApart(columns);
    assert t.columns[i] in t.columns;
  }

  /**
   On a table freshly created from a specification, the observer accepts that specification if and only if
   it declares no primary key column nullable.
   */
  lemma FreshTableObserved(c: Catalog, spec: TableSpec, rows: seq<Row>)
    requires WellFormed(c, spec) && spec.table !in c.tables
    requires RowsOf(Migrated(c, spec).tables[spec.table], NameSet(spec.columns), rows)
    ensures Accepts(spec.columns, rows) <==>
              forall i :: 0 <= i < |spec.columns| ==> !(spec.columns[i].primaryKey && spec.columns[i].nullable)
  {
    var columns := spec.columns;
    assert Migrated(c, spec).tables[spec.table] == Fresh(columns);
    FreshRowsApart(columns);
    ObserverIsExact(Fresh(columns), columns, rows);
    forall i | 0 <= i < |columns|
      ensures Has(Fresh(columns), columns[i]) <==> !(columns[i].primaryKey && columns[i].nullable)
    {
      FreshHas(columns, i);
    }
  }
}
