/**
 controllers/postgrestable_controller.go: create the table, or add the columns it lacks in one transaction.
 */
module TableController {
  import opened Wrappers
  import opened SqlText
  import opened Specs
  import opened SqlGrammar
  import opened TableSql
  import opened Postgres

  datatype TableCreation = TableCreated | TableExisted | TableFailed

  function JudgeTable(reply: Reply): TableCreation {
    if reply == Done then TableCreated else if reply == Refused(DuplicateTable) then TableExisted else TableFailed
  }

  function CreateTableOf(spec: TableSpec): Statement {
    CreateTable(spec.table.Clean(), ItemsOf(spec.columns))
  }

  /** CREATE SCHEMA IF NOT EXISTS, and CREATE TABLE only if that succeeded. */
  function CreateTableRun(c: Catalog, fates: seq<Fate>, spec: TableSpec): (Catalog, seq<Fate>, TableCreation) {
    var (c1, r1) := Serve(c, Next(fates), Some(CreateSchema(Strip(spec.table.schema))));
    if r1 != Done then (c1, Later(fates), TableFailed)
    else
      var (c2, r2) := Serve(c1, Next(Later(fates)), Some(CreateTableOf(spec)));
      (c2, Later(Later(fates)), JudgeTable(r2))
  }

  function ExistingNames(c: Catalog, table: TableName): set<string> {
    if table in c.tables then ColumnNames(c.tables[table].columns) else {}
  }

  /** The columns to add, in the order of the specification. */
  function Missing(columns: seq<Column>, names: set<string>): seq<Column> {
    if columns == [] then []
    else
      var last := columns[|columns| - 1];
      Missing(columns[..|columns| - 1], names) + if last.name in names then [] else [last]
  }

  /** The transaction's view after adding columns one by one; None once a statement has failed. */
  function AddRun(c: Catalog, fates: seq<Fate>, table: TableName, columns: seq<Column>): (Option<Catalog>, seq<Fate>) {
    if columns == [] then (Some(c), fates)
    else
      var (work, later) := AddRun(c, fates, table, columns[..|columns| - 1]);
      if work.None? then (None, later)
      else
        var (after, reply) :=
          Serve(work.value, Next(later), Some(AddColumn(table.Clean(), ItemOf(columns[|columns| - 1]))));
        (if reply == Done then Some(after) else None, Later(later))
  }

  function AlterTableRun(c: Catalog, fates: seq<Fate>, spec: TableSpec): (Catalog, seq<Fate>, bool) {
    if Next(fates) != Delivered || !NulFree(spec.table.schema)
      || !NulFree(spec.table.name) then (c, Later(fates), false)
    else if Next(Later(fates)) != Delivered then (c, Later(Later(fates)), false)
    else
      var (work, later) :=
        AddRun(c, Later(Later(fates)), spec.table, Missing(spec.columns, ExistingNames(c, spec.table)));
      if work.None? then (c, later, false)
      else (if Next(later) == Lost then c else work.value, Later(later), Next(later) == Delivered)
  }

  function TableRun(c: Catalog, fates: seq<Fate>, spec: TableSpec): (Catalog, seq<Fate>, bool) {
    var (c1, f1, creation) := CreateTableRun(c, fates, spec);
    match creation
    case TableFailed => (c1, f1, false)
    case TableCreated => (c1, f1, true)
    case TableExisted => AlterTableRun(c1, f1, spec)
  }

  lemma OneQuoted(name: string)
    ensures Sanitize([name]) == Quoted(name)
  {
    assert QuotedParts([name]) == [Quoted(name)];
  }

  lemma {:induction false} KeyNamesSnoc(columns: seq<Column>, c: Column)
    ensures KeyNames(columns + [c]) == KeyNames(columns) + if c.primaryKey then [c.name] else []
  {
    if columns == [] {
      assert columns + [c] == [c] && [c][1..] == [];
    } else {
      KeyNamesSnoc(columns[1..], c);
      assert (columns + [c])[1..] == columns[1..] + [c];
    }
  }

  lemma {:induction false} AddRunStops(c: Catalog, fates: seq<Fate>, table: TableName, columns: seq<Column>, i: nat)
    requires i <= |columns| && AddRun(c, fates, table, columns[..i]).0.None?
    ensures AddRun(c, fates, table, columns) == AddRun(c, fates, table, columns[..i])
  {
    if i == |columns| {
      assert columns[..i] == columns;
    } else {
      var shorter := columns[..|columns| - 1];
      assert shorter[..i] == columns[..i];
      AddRunStops(c, fates, table, shorter, i);
    }
  }

  class TableReconciler {
    const conn: Session

    constructor (conn: Session)
      ensures this.conn == conn
    {
      this.conn := conn;
    }

    method EnsureSchemaExists(spec: TableSpec) returns (ok: bool)
      modifies conn`catalog, conn`fates
      ensures var (after, reply) :=
              Serve(old(conn.catalog), Next(old(conn.fates)), Some(CreateSchema(Strip(spec.table.schema))));
              conn.catalog == after && ok == (reply == Done)
      ensures conn.fates == Later(old(conn.fates))
    {
      ReadCreateSchema(spec.table.schema);
      var reply := conn.Exec("CREATE SCHEMA IF NOT EXISTS " + Sanitize([spec.table.schema]));
      return reply == Done;
    }

    method BuildCreateTableQuery(spec: TableSpec) returns (sql: string)
      ensures sql == CreateTableText(spec)
    {
      var columns := spec.columns;
      var primaryKeys: seq<string> := [];
      for i := 0 to |columns|
        invariant primaryKeys == QuotedParts(KeyNames(columns[..i]))
      {
        assert columns[..i + 1] == columns[..i] + [columns[i]];
        KeyNamesSnoc(columns[..i], columns[i]);
        OneQuoted(columns[i].name);
        if columns[i].primaryKey {
          primaryKeys := primaryKeys + [Sanitize([columns[i].name])];
        }
      }
      assert columns[..|columns|] == columns;
      var columnClauses: seq<string> := [];
      for i := 0 to |columns|
        invariant columnClauses == ColumnTexts(columns[..i])
      {
        assert columns[..i + 1] == columns[..i] + [columns[i]];
        var sqlParts := [Sanitize([columns[i].name]), Sanitize([columns[i].dataType])];
        if !columns[i].nullable {
          sqlParts := sqlParts + ["NOT NULL"];
        }
        assert columns[i].nullable ==> sqlParts == sqlParts + [];
        columnClauses := columnClauses + [Join(sqlParts, " ")];
      }
      if |primaryKeys| > 0 {
        columnClauses := columnClauses + ["PRIMARY KEY (" + Join(primaryKeys, ", ") + ")"];
      }
      assert columnClauses == ColumnTexts(columns) + KeyTexts(KeyNames(columns));
      sql := "CREATE TABLE " + Sanitize(spec.table.Ident()) + " (" + Join(columnClauses, ",\n") + ")";
    }

    method CreateTable(spec: TableSpec) returns (r: TableCreation)
      modifies conn`catalog, conn`fates
      ensures (conn.catalog, conn.fates, r) == CreateTableRun(old(conn.catalog), old(conn.fates), spec)
    {
      var ok := EnsureSchemaExists(spec);
      if !ok {
        return TableFailed;
      }
      var sql := BuildCreateTableQuery(spec);
      ReadCreateTable(spec);
      var reply := conn.Exec(sql);
      var tableCreated := true;
      if reply != Done {
        if reply.Refused? && reply.code == DuplicateTable {
          tableCreated := false;
        } else {
          return TableFailed;
        }
      }
      return if tableCreated then TableCreated else TableExisted;
    }

    static method BuildAddColumnQuery(table: TableName, column: Column) returns (query: string)
      ensures query == AddColumnText(table, column)
    {
      var parts := ["ALTER TABLE " + Sanitize(table.Ident()) + " ADD COLUMN " + Sanitize([column.name]) + " "
                    + Sanitize([column.dataType])];
      if !column.nullable {
        parts := parts + ["NOT NULL"];
      }
      assert column.nullable ==> parts == parts + [];
      query := Join(parts, " ");
    }

    static method ColumnsToAdd(columns: seq<Column>, columnNames: set<string>) returns (columnsToAdd: seq<Column>)
      ensures columnsToAdd == Missing(columns, columnNames)
    {
      columnsToAdd := [];
      for i := 0 to |columns|
        invariant columnsToAdd == Missing(columns[..i], columnNames)
      {
        assert columns[..i + 1][..i] == columns[..i];
        if columns[i].name !in columnNames {
          columnsToAdd := columnsToAdd + [columns[i]];
        }
      }
      assert columns[..|columns|] == columns;
    }

    /** The callback of the query, row by row. */
    static method CollectNames(rows: seq<string>) returns (columnNames: set<string>)
      ensures columnNames == set n | n in rows
    {
      columnNames := {};
      for i := 0 to |rows|
        invariant columnNames == set n | n in rows[..i]
      {
        columnNames := columnNames + {rows[i]};
      }
      assert rows[..|rows|] == rows;
    }

    /** One statement per column within the open transaction, up to the first failure. */
    method AddColumns(table: TableName, columns: seq<Column>) returns (ok: bool)
      requires conn.work.Some?
      modifies conn`work, conn`fates
      ensures (conn.work, conn.fates) == AddRun(old(conn.work).value, old(conn.fates), table, columns)
      ensures ok == conn.work.Some?
    {
      ghost var base, fates := conn.work.value, conn.fates;
      for i := 0 to |columns|
        invariant (conn.work, conn.fates) == AddRun(base, fates, table, columns[..i])
        invariant conn.work.Some?
      {
        var query := BuildAddColumnQuery(table, columns[i]);
        ReadAddColumn(table, columns[i]);
        assert columns[..i + 1][..i] == columns[..i];
        var reply := conn.ExecTx(query);
        if reply != Done {
          AddRunStops(base, fates, table, columns, i + 1);
          return false;
        }
      }
      assert columns[..|columns|] == columns;
      return true;
    }

    method AlterExistingTable(spec: TableSpec) returns (ok: bool)
      modifies conn
      ensures (conn.catalog, conn.fates, ok) == AlterTableRun(old(conn.catalog), old(conn.fates), spec)
    {
      var rows := conn.QueryColumnNames(spec.table.schema, spec.table.name);
      if rows.None? {
        return false;
      }
      var columnNames := CollectNames(rows.value);
      assert columnNames == ExistingNames(conn.catalog, spec.table) by {
        assert spec.table == TableName(spec.table.schema, spec.table.name);
      }
      var columnsToAdd := ColumnsToAdd(spec.columns, columnNames);
      var begun := conn.BeginTx();
      if !begun {
        return false;
      }
      var added := AddColumns(spec.table, columnsToAdd);
      if !added {
        conn.Rollback();
        return false;
      }
      ok := conn.Commit();
      conn.Rollback();
    }

    method Reconcile(spec: TableSpec) returns (ok: bool)
      modifies conn
      ensures (conn.catalog, conn.fates, ok) == TableRun(old(conn.catalog), old(conn.fates), spec)
    {
      var creation := CreateTable(spec);
      if creation == TableFailed {
        return false;
      }
      if creation != TableCreated {
        ok := AlterExistingTable(spec);
        return;
      }
      return true;
    }
  }
}
