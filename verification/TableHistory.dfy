/**
 What becomes of a table: each migration happens completely or not at all, and over any history of
 specifications the columns are those the specifications list, in order of first appearance.
 */
module TableHistory {
  import opened Wrappers
  import opened SqlText
  import opened Specs
  import opened SqlGrammar
  import opened TableSql
  import opened Postgres
  import opened TableController

  /** The catalog row for a column, when `key` is the table's primary key. */
  function RowOf(c: Column, key: set<string>): ColumnEntry {
    ColumnEntry(Strip(c.name), Strip(c.dataType), c.nullable && Strip(c.name) !in key)
  }

  function Rows(columns: seq<Column>, key: set<string>): seq<ColumnEntry> {
    seq(|columns|, i requires 0 <= i < |columns| => RowOf(columns[i], key))
  }

  function Extended(c: Catalog, table: TableName, columns: seq<Column>): Catalog
  {
    if table.Clean() !in c.tables then c
    else
      var t := c.tables[table.Clean()];
      c.(tables := c.tables[table.Clean() := t.(columns := t.columns + Rows(columns, {}))])
  }

  // ---------------------------------------------------------------------------------------------------
  // All or nothing
  // ---------------------------------------------------------------------------------------------------

  lemma ExtendedSnoc(c: Catalog, table: TableName, columns: seq<Column>, last: Column)
    requires table.Clean() in c.tables
    ensures Extended(Extended(c, table, columns), table, [last]) == Extended(c, table, columns + [last])
  {
    var t := c.tables[table.Clean()];
    assert Rows(columns + [last], {}) == Rows(columns, {}) + Rows([last], {});
    assert t.columns + Rows(columns, {}) + Rows([last], {}) == t.columns + Rows(columns + [last], {});
  }

  lemma AddColumnEffect(c: Catalog, table: TableName, column: Column)
    ensures var (after, code) := Apply(c, AddColumn(table.Clean(), ItemOf(column)));
            (code == None <==>
              table.Clean() in c.tables && Strip(column.dataType) in c.types
              && Strip(column.name) !in ColumnNames(c.tables[table.Clean()].columns)) &&
            (code == None ==> after == Extended(c, table, [column]))
  {
    assert Rows([column], {}) == [ColumnEntry(Strip(column.name), Strip(column.dataType), column.nullable)];
  }

  /** As long as no statement has failed, the transaction holds exactly the columns added so far. */
  lemma {:induction false} AddRunAdds(c: Catalog, fates: seq<Fate>, table: TableName, columns: seq<Column>)
    requires table.Clean() in c.tables
    requires AddRun(c, fates, table, columns).0.Some?
    ensures AddRun(c, fates, table, columns).0 == Some(Extended(c, table, columns))
    ensures AddRun(c, fates, table, columns).1 == if |columns| <= |fates| then fates[|columns|..] else []
    ensures forall i :: 0 <= i < |columns| && i < |fates| ==> fates[i] == Delivered
  {
    if columns == [] {
      assert Rows([], {}) == [];
      var t := c.tables[table.Clean()];
      assert t.columns + [] == t.columns;
      assert c.tables[table.Clean() := t] == c.tables;
    } else {
      var shorter, last := columns[..|columns| - 1], columns[|columns| - 1];
      AddRunAdds(c, fates, table, shorter);
      AddColumnEffect(Extended(c, table, shorter), table, last);
      ExtendedSnoc(c, table, shorter, last);
      assert shorter + [last] == columns;
    }
  }

  lemma {:induction false} MissingApart(columns: seq<Column>, names: set<string>)
    ensures NamesApart(Missing(columns, names), names)
    ensures forall c :: c in Missing(columns, names) ==> c in columns
  {
    if columns != [] {
      MissingApart(columns[..|columns| - 1], names);
    }
  }

  lemma MissingPlain(columns: seq<Column>, names: set<string>)
    requires PlainColumns(columns)
    ensures PlainColumns(Missing(columns, names)) && NamesApart(Missing(columns, names), names)
  {
    MissingApart(columns, names);
    forall i | 0 <= i < |Missing(columns, names)|
      ensures Missing(columns, names)[i] in columns
    {
      assert Missing(columns, names)[i] in Missing(columns, names);
    }
  }

  /** The server takes the columns: their types exist and no two of them have one name. */
  predicate Addable(columns: seq<Column>, types: set<string>) {
    TypesKnown(columns, types) && DistinctNames(columns)
  }

  lemma AddableSnoc(columns: seq<Column>, last: Column, types: set<string>)
    ensures Addable(columns + [last], types) <==>
              Addable(columns, types) && last.dataType in types && forall i :: 0 <= i < |columns| ==>
                columns[i].name != last.name
  {
    var all := columns + [last];
    assert all[|columns|] == last && forall i :: 0 <= i < |columns| ==> all[i] == columns[i];
  }

  /** One more column is accepted when it can be. */
  lemma OneMoreColumn(c: Catalog, table: TableName, columns: seq<Column>, last: Column)
    requires table.Clean() in c.tables && PlainColumns(columns + [last])
    requires NamesApart(columns + [last], ColumnNames(c.tables[table.Clean()].columns)) && Addable(columns, c.types)
    ensures Apply(Extended(c, table, columns), AddColumn(table.Clean(), ItemOf(last))).1 == None
        <==> Addable(columns + [last], c.types)
  {
    var all := columns + [last];
    assert all[|columns|] == last && forall i :: 0 <= i < |columns| ==> all[i] == columns[i];
    StripNulFree(last.name);
    StripNulFree(last.dataType);
    RowNames(columns, {});
    NamesOfConcat(c.tables[table.Clean()].columns, Rows(columns, {}));
    AddColumnEffect(Extended(c, table, columns), table, last);
    AddableSnoc(columns, last, c.types);
  }

  /** The statements of the transaction all succeed exactly when all are delivered and the columns can be added. */
  lemma {:induction false} AddRunExactly(c: Catalog, fates: seq<Fate>, table: TableName, columns: seq<Column>)
    requires table.Clean() in c.tables && PlainColumns(columns)
    requires NamesApart(columns, ColumnNames(c.tables[table.Clean()].columns))
    ensures AddRun(c, fates, table, columns).0.Some? <==> DeliveredUpTo(fates, |columns|) && Addable(columns, c.types)
  {
    if columns != [] {
      var shorter, last := columns[..|columns| - 1], columns[|columns| - 1];
      assert shorter + [last] == columns;
      AddRunExactly(c, fates, table, shorter);
      AddableSnoc(shorter, last, c.types);
      DeliveredSnoc(fates, |shorter|);
      var (work, later) := AddRun(c, fates, table, shorter);
      if work.Some? {
        AddRunAdds(c, fates, table, shorter);
        OneMoreColumn(c, table, shorter, last);
        assert Next(later) == FateAt(fates, |shorter|);
        assert Serve(work.value, Next(later), Some(AddColumn(table.Clean(), ItemOf(last)))).1 == Done <==>
               Next(later) == Delivered && Apply(work.value, AddColumn(table.Clean(), ItemOf(last))).1 == None;
      }
    }
  }

  /** The catalog after a migration attempt, by its fates. */
  lemma AlterByFates(c: Catalog, fates: seq<Fate>, spec: TableSpec)
    requires PlainTable(spec) && spec.table in c.tables
    ensures var missing := Missing(spec.columns, ColumnNames(c.tables[spec.table].columns));
            var (after, _, ok) := AlterTableRun(c, fates, spec);
            var accepted := DeliveredUpTo(fates, 2 + |missing|) && Addable(missing, c.types);
            && after == (if accepted && FateAt(fates, 2 + |missing|) != Lost then Extended(c, spec.table, missing)
                         else c)
            && (ok <==> accepted && FateAt(fates, 2 + |missing|) == Delivered)
  {
    CleanPlainName(spec);
    var missing := Missing(spec.columns, ColumnNames(c.tables[spec.table].columns));
    MissingPlain(spec.columns, ColumnNames(c.tables[spec.table].columns));
    SplitFates(fates, |missing|);
    if Next(fates) == Delivered && Next(Later(fates)) == Delivered {
      AlterOnceBegun(c, fates, spec);
      TransactionByFates(c, Later(Later(fates)), spec.table, missing);
    } else {
      NotBegun(c, fates, spec);
    }
  }

  lemma NotBegun(c: Catalog, fates: seq<Fate>, spec: TableSpec)
    requires Next(fates) != Delivered || Next(Later(fates)) != Delivered
    ensures AlterTableRun(c, fates, spec).0 == c && !AlterTableRun(c, fates, spec).2
  {
  }

  /** What the transaction makes of the catalog, when it commits if nothing fails before. */
  function Transaction(c: Catalog, fates: seq<Fate>, table: TableName, columns: seq<Column>): (Catalog, bool) {
    var (work, later) := AddRun(c, fates, table, columns);
    if work.None? then (c, false) else (if Next(later) == Lost then c else work.value, Next(later) == Delivered)
  }

  lemma AlterOnceBegun(c: Catalog, fates: seq<Fate>, spec: TableSpec)
    requires PlainTable(spec) && Next(fates) == Delivered && Next(Later(fates)) == Delivered
    ensures var (after, _, ok) := AlterTableRun(c, fates, spec);
            (after, ok) == Transaction(c, Later(Later(fates)), spec.table,
                                       Missing(spec.columns, ExistingNames(c, spec.table)))
  {
  }

  lemma TransactionByFates(c: Catalog, fates: seq<Fate>, table: TableName, columns: seq<Column>)
    requires table.Clean() in c.tables && PlainColumns(columns)
    requires NamesApart(columns, ColumnNames(c.tables[table.Clean()].columns))
    ensures var (after, ok) := Transaction(c, fates, table, columns);
            var accepted := DeliveredUpTo(fates, |columns|) && Addable(columns, c.types);
            && after == (if accepted && FateAt(fates, |columns|) != Lost then Extended(c, table, columns) else c)
            && (ok <==> accepted && FateAt(fates, |columns|) == Delivered)
  {
    AddRunExactly(c, fates, table, columns);
    if AddRun(c, fates, table, columns).0.Some? {
      AddRunAdds(c, fates, table, columns);
    }
  }

  lemma SplitFates(fates: seq<Fate>, n: nat)
    ensures var later := Later(Later(fates));
            && FateAt(fates, 2 + n) == FateAt(later, n)
            && (DeliveredUpTo(fates, 2 + n) <==>
                Next(fates) == Delivered && Next(Later(fates)) == Delivered && DeliveredUpTo(later, n))
  {
    LaterFates(fates, n + 1);
    LaterFates(Later(fates), n);
    DeliveredCons(fates, n + 1);
    DeliveredCons(Later(fates), n);
  }

  /**
   Whatever fails, the table is as it was or has exactly the missing columns appended in the order of the
   specification; success means the latter. After an error the table has changed if and only if there were
   columns to add, their types exist and their names differ, every call up to COMMIT was delivered, and the
   answer to COMMIT was lost.
   */
  lemma AllOrNothing(c: Catalog, fates: seq<Fate>, spec: TableSpec)
    requires PlainTable(spec) && spec.table in c.tables
    ensures var missing := Missing(spec.columns, ColumnNames(c.tables[spec.table].columns));
            var (after, _, ok) := AlterTableRun(c, fates, spec);
            && (after == c || after == Extended(c, spec.table, missing))
            && (ok ==> after == Extended(c, spec.table, missing))
            && (!ok && after != c <==>
                  && missing != [] && Addable(missing, c.types)
                  && DeliveredUpTo(fates, 2 + |missing|) && FateAt(fates, 2 + |missing|) == Unanswered)
  {
    CleanPlainName(spec);
    AlterByFates(c, fates, spec);
    ExtendedDiffers(c, spec.table, Missing(spec.columns, ColumnNames(c.tables[spec.table].columns)));
  }

  lemma ExtendedDiffers(c: Catalog, table: TableName, columns: seq<Column>)
    requires table.Clean() in c.tables
    ensures Extended(c, table, columns) == c <==> columns == []
  {
    var t := c.tables[table.Clean()];
    if columns == [] {
      assert t.columns + Rows(columns, {}) == t.columns;
      assert c.tables[table.Clean() := t] == c.tables;
    } else {
      assert |Extended(c, table, columns).tables[table.Clean()].columns| > |t.columns|;
    }
  }

  lemma CleanPlainName(spec: TableSpec)
    requires PlainTable(spec)
    ensures spec.table.Clean() == spec.table
  {
    StripNulFree(spec.table.schema);
    StripNulFree(spec.table.name);
  }

  // ---------------------------------------------------------------------------------------------------
  // Migrations by their fates
  // ---------------------------------------------------------------------------------------------------

  predicate NamesApart(columns: seq<Column>, names: set<string>) {
    forall i :: 0 <= i < |columns| ==> columns[i].name !in names
  }

  predicate TypesKnown(columns: seq<Column>, types: set<string>) {
    forall i :: 0 <= i < |columns| ==> columns[i].dataType in types
  }

  lemma NamesOfConcat(a: seq<ColumnEntry>, b: seq<ColumnEntry>)
    ensures ColumnNames(a + b) == ColumnNames(a) + ColumnNames(b)
  {
  }

  lemma RowNames(columns: seq<Column>, key: set<string>)
    requires PlainColumns(columns)
    ensures forall n :: n in ColumnNames(Rows(columns, key)) <==> exists i :: 0 <= i < |columns| && columns[i].name == n
  {
    var rows := Rows(columns, key);
    forall i | 0 <= i < |columns|
      ensures rows[i].name == columns[i].name && rows[i] in rows
    {
      StripNulFree(columns[i].name);
    }
    forall n | n in ColumnNames(rows)
      ensures exists i :: 0 <= i < |columns| && columns[i].name == n
    {
      var r :| r in rows && r.name == n;
      var i :| 0 <= i < |rows| && rows[i] == r;
      assert columns[i].name == n;
    }
  }

  lemma {:induction false} MissingIs(columns: seq<Column>, names: set<string>)
    requires DistinctNames(columns)
    ensures NamesApart(Missing(columns, names), names) && DistinctNames(Missing(columns, names))
    ensures forall c :: c in Missing(columns, names) ==> c in columns
    ensures forall c :: c in columns && c.name !in names ==> c in Missing(columns, names)
  {
    if columns != [] {
      var shorter, last := columns[..|columns| - 1], columns[|columns| - 1];
      MissingIs(shorter, names);
      assert forall c :: c in columns <==> c in shorter || c == last;
      forall c | c in Missing(shorter, names)
        ensures c.name != last.name
      {
        var i :| 0 <= i < |shorter| && shorter[i] == c;
        assert columns[i].name != columns[|columns| - 1].name;
      }
    }
  }

  lemma {:induction false} NewColumnsAre(columns: seq<Column>, tail: seq<TableItem>, key: set<string>)
    requires |tail| <= 1 && forall i :: 0 <= i < |tail| ==> tail[i].KeyItem?
    ensures var items := seq(|columns|, i requires 0 <= i < |columns| => ItemOf(columns[i])) + tail;
            NewColumns(items, key) == Rows(columns, key) &&
            ItemNames(items) == seq(|columns|, i requires 0 <= i < |columns| => Strip(columns[i].name))
  {
    var items := seq(|columns|, i requires 0 <= i < |columns| => ItemOf(columns[i])) + tail;
    if columns == [] {
      if tail != [] {
        assert items[1..] == [];
      }
    } else {
      var rest := columns[1..];
      assert items[1..] == seq(|rest|, i requires 0 <= i < |rest| => ItemOf(rest[i])) + tail;
      NewColumnsAre(rest, tail, key);
      assert Rows(columns, key) == [RowOf(columns[0], key)] + Rows(rest, key);
      assert seq(|columns|, i requires 0 <= i < |columns| => Strip(columns[i].name))
          == [Strip(columns[0].name)] + seq(|rest|, i requires 0 <= i < |rest| => Strip(rest[i].name));
    }
  }

  function KeyOf(columns: seq<Column>): set<string> {
    set n | n in KeyNames(columns)
  }

  lemma KeyOfIs(columns: seq<Column>)
    requires PlainColumns(columns)
    ensures ItemKeys(ItemsOf(columns)) == KeyOf(columns)
    ensures forall n :: n in KeyOf(columns) ==>
            exists i :: 0 <= i < |columns| && columns[i].primaryKey && columns[i].name == n
  {
    var names, items := KeyNames(columns), ItemsOf(columns);
    KeyNamesAre(columns);
    forall i | 0 <= i < |names|
      ensures CleanNames(names)[i] == names[i]
    {
      assert names[i] in names;
      StripNulFree(names[i]);
    }
    assert CleanNames(names) == names;
    if names != [] {
      assert items[|columns|] == KeyItem(names);
    }
    assert forall item :: item in items && item.KeyItem? ==> item == KeyItem(names);
    assert forall n :: n in names ==> KeyItem(names) in items && n in KeyItem(names).columns;
  }

  lemma ItemsInOrder(columns: seq<Column>)
    requires PlainColumns(columns)
    ensures NewColumns(ItemsOf(columns), KeyOf(columns)) == Rows(columns, KeyOf(columns))
    ensures |ItemNames(ItemsOf(columns))| == |columns|
    ensures forall i :: 0 <= i < |columns| ==> ItemNames(ItemsOf(columns))[i] == columns[i].name
  {
    NewColumnsAre(columns, KeyItems(KeyNames(columns)), KeyOf(columns));
    forall i | 0 <= i < |columns|
      ensures Strip(columns[i].name) == columns[i].name
    {
      StripNulFree(columns[i].name);
    }
  }

  lemma ItemTypesKnown(columns: seq<Column>, types: set<string>)
    requires PlainColumns(columns) && TypesKnown(columns, types)
    ensures KnownTypes(ItemsOf(columns), types)
  {
    forall item | item in ItemsOf(columns) && item.ColumnItem?
      ensures item.dataType in types
    {
      var i :| 0 <= i < |columns| && ItemOf(columns[i]) == item;
      StripNulFree(columns[i].dataType);
    }
  }

  lemma KeysAreNamed(columns: seq<Column>)
    requires PlainColumns(columns)
    ensures forall key :: key in ItemKeys(ItemsOf(columns)) ==> key in ItemNames(ItemsOf(columns))
  {
    KeyOfIs(columns);
    ItemsInOrder(columns);
    forall n | n in KeyOf(columns)
      ensures n in ItemNames(ItemsOf(columns))
    {
      var i :| 0 <= i < |columns| && columns[i].primaryKey && columns[i].name == n;
      assert ItemNames(ItemsOf(columns))[i] == n;
    }
  }

  /** What PostgreSQL makes of the CREATE TABLE that is printed for a well-formed specification. */
  lemma CreateTableEffect(c: Catalog, spec: TableSpec)
    requires PlainTable(spec) && DistinctNames(spec.columns) && TypesKnown(spec.columns, c.types)
    requires spec.table.schema in c.schemas
    ensures Apply(c, CreateTableOf(spec)) ==
            if spec.table in c.tables then (c, Some(DuplicateTable))
            else (c.(tables := c.tables[spec.table :=
                  TableEntry(Rows(spec.columns, KeyOf(spec.columns)), KeyOf(spec.columns))]), None)
  {
    CleanPlainName(spec);
    KeyOfIs(spec.columns);
    ItemsInOrder(spec.columns);
    ItemTypesKnown(spec.columns, c.types);
    KeysAreNamed(spec.columns);
  }

  predicate WellFormed(c: Catalog, spec: TableSpec) {
    PlainTable(spec) && DistinctNames(spec.columns) && TypesKnown(spec.columns, c.types)
  }

  function WithSchema(c: Catalog, schema: string): Catalog {
    c.(schemas := c.schemas + {schema})
  }

  /** A fault-free reconcile of a well-formed specification always succeeds, and this is all it does. */
  function Migrated(c: Catalog, spec: TableSpec): Catalog {
    var ready := WithSchema(c, spec.table.schema);
    if spec.table in c.tables then
      var t := c.tables[spec.table];
      var added := Missing(spec.columns, ColumnNames(t.columns));
      ready.(tables := c.tables[spec.table := t.(columns := t.columns + Rows(added, {}))])
    else
      ready.(tables := c.tables[spec.table := TableEntry(Rows(spec.columns, KeyOf(spec.columns)), KeyOf(spec.columns))])
  }

  /** How many columns the table lacks. */
  function Lacking(c: Catalog, spec: TableSpec): nat {
    if spec.table in c.tables then |Missing(spec.columns, ColumnNames(c.tables[spec.table].columns))| else 0
  }

  /**
   Which attempts leave a trace. A new table: CREATE TABLE reached the server. An existing one: the schema,
   the refused CREATE TABLE, the query, BEGIN and every ADD COLUMN were answered, and COMMIT reached the server.
   */
  predicate TakesEffect(c: Catalog, fates: seq<Fate>, spec: TableSpec) {
    && FateAt(fates, 0) == Delivered
    && if spec.table in c.tables then
         && FateAt(fates, 1) == Delivered
         && DeliveredUpTo(Later(Later(fates)), 2 + Lacking(c, spec))
         && FateAt(Later(Later(fates)), 2 + Lacking(c, spec)) != Lost
       else FateAt(fates, 1) != Lost
  }

  lemma CreateByFates(c: Catalog, fates: seq<Fate>, spec: TableSpec)
    requires WellFormed(c, spec)
    ensures var (after, later, creation) := CreateTableRun(c, fates, spec);
            && later == (if FateAt(fates, 0) == Delivered then Later(Later(fates)) else Later(fates))
            && after == (if FateAt(fates, 0) == Lost then c
                         else if spec.table !in c.tables && FateAt(fates, 0) == Delivered && FateAt(fates, 1) != Lost
                         then Migrated(c, spec) else WithSchema(c, spec.table.schema))
            && (creation == TableExisted <==>
                  spec.table in c.tables && FateAt(fates, 0) == FateAt(fates, 1) == Delivered)
            && (creation == TableCreated <==>
                  spec.table !in c.tables && FateAt(fates, 0) == FateAt(fates, 1) == Delivered)
  {
    StripNulFree(spec.table.schema);
    LaterFates(fates, 0);
    LaterFates(Later(fates), 0);
    CreateTableEffect(WithSchema(c, spec.table.schema), spec);
  }

  /** The calls of a reconcile: schema, CREATE TABLE, and then the query, BEGIN, each ADD COLUMN and COMMIT. */
  function TableCalls(c: Catalog, spec: TableSpec): nat {
    if spec.table in c.tables then 5 + Lacking(c, spec) else 2
  }

  /**
   A reconcile under any fates migrates the table or leaves it alone, and beyond that changes nothing but
   the schema. It succeeds if and only if every call was carried out and answered, and then it has migrated.
   */
  lemma AttemptEffect(c: Catalog, fates: seq<Fate>, spec: TableSpec)
    requires WellFormed(c, spec)
    ensures var (after, _, ok) := TableRun(c, fates, spec);
            && after == (if FateAt(fates, 0) == Lost then c
                         else if TakesEffect(c, fates, spec) then Migrated(c, spec)
                         else WithSchema(c, spec.table.schema))
            && (ok <==> DeliveredUpTo(fates, TableCalls(c, spec)))
            && (ok ==> after == Migrated(c, spec))
  {
    CreateByFates(c, fates, spec);
    CallsInTurn(c, fates, spec);
    var (c1, f1, creation) := CreateTableRun(c, fates, spec);
    if creation == TableExisted {
      ExistingByFates(c, f1, spec);
    }
  }

  lemma CallsInTurn(c: Catalog, fates: seq<Fate>, spec: TableSpec)
    ensures DeliveredUpTo(fates, TableCalls(c, spec)) <==>
            && FateAt(fates, 0) == FateAt(fates, 1) == Delivered
            && (spec.table in c.tables ==>
                  DeliveredUpTo(Later(Later(fates)), 2 + Lacking(c, spec))
                  && FateAt(Later(Later(fates)), 2 + Lacking(c, spec)) == Delivered)
  {
    LaterFates(fates, 0);
    LaterFates(Later(fates), 0);
    SplitFates(fates, TableCalls(c, spec) - 2);
    if spec.table in c.tables {
      DeliveredSnoc(Later(Later(fates)), 2 + Lacking(c, spec));
    }
  }

  /** The part after CREATE TABLE, which leaves its schema behind. */
  lemma ExistingByFates(c: Catalog, fates: seq<Fate>, spec: TableSpec)
    requires WellFormed(c, spec) && spec.table in c.tables
    ensures var ready, n := WithSchema(c, spec.table.schema), 2 + Lacking(c, spec);
            var (after, _, ok) := AlterTableRun(ready, fates, spec);
            && after == (if DeliveredUpTo(fates, n) && FateAt(fates, n) != Lost then Migrated(c, spec) else ready)
            && (ok <==> DeliveredUpTo(fates, n) && FateAt(fates, n) == Delivered)
  {
    var names := ColumnNames(c.tables[spec.table].columns);
    CleanPlainName(spec);
    MissingIs(spec.columns, names);
    MissingTypes(spec.columns, names, c.types);
    AlterByFates(WithSchema(c, spec.table.schema), fates, spec);
  }

  lemma UnknownTypeIsSeen(columns: seq<Column>, types: set<string>)
    requires PlainColumns(columns) && !TypesKnown(columns, types)
    ensures !KnownTypes(ItemsOf(columns), types)
  {
    var i :| 0 <= i < |columns| && columns[i].dataType !in types;
    StripNulFree(columns[i].dataType);
    assert ItemsOf(columns)[i] == ItemOf(columns[i]) && ItemsOf(columns)[i] in ItemsOf(columns);
  }

  lemma DuplicateIsSeen(columns: seq<Column>)
    requires PlainColumns(columns) && !DistinctNames(columns)
    ensures !Distinct(ItemNames(ItemsOf(columns)))
  {
    ItemsInOrder(columns);
    var i, j :| 0 <= i < j < |columns| && columns[i].name == columns[j].name;
    assert ItemNames(ItemsOf(columns))[i] == ItemNames(ItemsOf(columns))[j];
  }

  /** CREATE TABLE for a specification that is not well-formed is refused, and not because the table exists. */
  lemma IllFormedIsRefused(c: Catalog, spec: TableSpec)
    requires PlainTable(spec) && !WellFormed(c, spec)
    ensures var (after, code) := Apply(c, CreateTableOf(spec));
            after == c && code.Some? && code != Some(DuplicateTable)
  {
    if !TypesKnown(spec.columns, c.types) {
      UnknownTypeIsSeen(spec.columns, c.types);
    } else {
      DuplicateIsSeen(spec.columns);
    }
  }

  /**
   Any specification without NUL: success means the migrated table, and it is reported if and only if the
   specification is well-formed and every call was carried out and answered. One that is not changes no table.
   */
  lemma TableRunExactly(c: Catalog, fates: seq<Fate>, spec: TableSpec)
    requires PlainTable(spec)
    ensures var (after, _, ok) := TableRun(c, fates, spec);
            && (ok <==> WellFormed(c, spec) && DeliveredUpTo(fates, TableCalls(c, spec)))
            && (ok ==> after == Migrated(c, spec))
            && (!WellFormed(c, spec) ==> after.tables == c.tables)
  {
    if WellFormed(c, spec) {
      AttemptEffect(c, fates, spec);
    } else {
      var (c1, r1) := Serve(c, Next(fates), Some(CreateSchema(Strip(spec.table.schema))));
      IllFormedIsRefused(c1, spec);
    }
  }

  lemma MissingTypes(columns: seq<Column>, names: set<string>, types: set<string>)
    requires TypesKnown(columns, types)
    ensures TypesKnown(Missing(columns, names), types)
  {
    MissingApart(columns, names);
    forall i | 0 <= i < |Missing(columns, names)|
      ensures Missing(columns, names)[i] in columns
    {
      assert Missing(columns, names)[i] in Missing(columns, names);
    }
  }

  /** Fault-free. */
  lemma TableRunMigrates(c: Catalog, fates: seq<Fate>, spec: TableSpec)
    requires WellFormed(c, spec) && AllDelivered(fates)
    ensures TableRun(c, fates, spec).0 == Migrated(c, spec) && TableRun(c, fates, spec).2
  {
    AttemptEffect(c, fates, spec);
  }

  // ---------------------------------------------------------------------------------------------------
  // The closed form of a history
  // ---------------------------------------------------------------------------------------------------

  function NameSet(columns: seq<Column>): set<string> {
    set c | c in columns :: c.name
  }

  /** A list of columns without those whose name appeared before. */
  function FirstAppearances(columns: seq<Column>): seq<Column> {
    if columns == [] then []
    else
      var shorter, last := columns[..|columns| - 1], columns[|columns| - 1];
      FirstAppearances(shorter) + if last.name in NameSet(shorter) then [] else [last]
  }

  function AllColumns(specs: seq<TableSpec>): seq<Column> {
    if specs == [] then [] else AllColumns(specs[..|specs| - 1]) + specs[|specs| - 1].columns
  }

  /** Reconciles one after the other, each fault-free. */
  function Run(c: Catalog, specs: seq<TableSpec>): Catalog {
    if specs == [] then c else TableRun(Run(c, specs[..|specs| - 1]), [], specs[|specs| - 1]).0
  }

  lemma OneMoreAppearance(a: seq<Column>, shorter: seq<Column>, last: Column)
    requires forall i :: 0 <= i < |shorter| ==> shorter[i].name != last.name
    ensures FirstAppearances(a + (shorter + [last]))
         == FirstAppearances(a + shorter) + (if last.name in NameSet(a) then [] else [last])
  {
    var all := a + (shorter + [last]);
    assert all[..|all| - 1] == a + shorter && all[|all| - 1] == last;
    assert NameSet(a + shorter) == NameSet(a) + NameSet(shorter);
    assert last.name !in NameSet(shorter);
  }

  lemma MissingSnoc(shorter: seq<Column>, last: Column, names: set<string>)
    ensures Missing(shorter + [last], names) == Missing(shorter, names) + if last.name in names then [] else [last]
  {
    assert (shorter + [last])[..|shorter|] == shorter;
  }

  lemma DistinctLast(columns: seq<Column>)
    requires DistinctNames(columns) && columns != []
    ensures var k := |columns| - 1;
            DistinctNames(columns[..k]) && forall i :: 0 <= i < k ==> columns[..k][i].name != columns[k].name
  {
  }

  lemma {:induction false} FirstAppearancesSplit(a: seq<Column>, b: seq<Column>)
    requires DistinctNames(b)
    ensures FirstAppearances(a + b) == FirstAppearances(a) + Missing(b, NameSet(a))
  {
    if b == [] {
      assert a + b == a;
    } else {
      var shorter, last := b[..|b| - 1], b[|b| - 1];
      DistinctLast(b);
      assert b == shorter + [last];
      FirstAppearancesSplit(a, shorter);
      OneMoreAppearance(a, shorter, last);
      MissingSnoc(shorter, last, NameSet(a));
      Regrouped(FirstAppearances(a), Missing(shorter, NameSet(a)), if last.name in NameSet(a) then [] else [last]);
    }
  }

  lemma Regrouped(a: seq<Column>, b: seq<Column>, c: seq<Column>)
    ensures a + b + c == a + (b + c)
  {
  }

  lemma {:induction false} FirstAppearancesNames(columns: seq<Column>)
    ensures NameSet(FirstAppearances(columns)) == NameSet(columns)
    ensures DistinctNames(FirstAppearances(columns))
    ensures forall c :: c in FirstAppearances(columns) ==> c in columns
  {
    if columns != [] {
      var shorter, last := columns[..|columns| - 1], columns[|columns| - 1];
      FirstAppearancesNames(shorter);
      assert columns == shorter + [last];
      assert NameSet(columns) == NameSet(shorter) + {last.name};
      forall i | 0 <= i < |FirstAppearances(shorter)|
        ensures FirstAppearances(shorter)[i].name in NameSet(shorter)
      {
        assert FirstAppearances(shorter)[i] in FirstAppearances(shorter);
      }
    }
  }

  predicate OneTable(c: Catalog, specs: seq<TableSpec>, table: TableName) {
    forall i :: 0 <= i < |specs| ==> specs[i].table == table && WellFormed(c, specs[i])
  }

  lemma RowsConcat(a: seq<Column>, b: seq<Column>, key: set<string>)
    requires forall i :: 0 <= i < |b| ==> Strip(b[i].name) !in key
    ensures Rows(a + b, key) == Rows(a, key) + Rows(b, {})
  {
  }

  /** The table with these columns in order of first appearance, under this key. */
  function Closed(c: Catalog, table: TableName, columns: seq<Column>, key: set<string>): Catalog {
    WithSchema(c, table.schema).(tables := c.tables[table := TableEntry(Rows(FirstAppearances(columns), key), key)])
  }

  lemma ClosedFirst(c: Catalog, spec: TableSpec)
    requires spec.table !in c.tables && DistinctNames(spec.columns)
    ensures Migrated(c, spec) == Closed(c, spec.table, spec.columns, KeyOf(spec.columns))
  {
    FirstAppearancesSplit([], spec.columns);
    MissingNone(spec.columns);
    assert [] + spec.columns == spec.columns && NameSet([]) == {};
  }

  lemma ClosedNames(columns: seq<Column>, key: set<string>)
    requires PlainColumns(columns)
    ensures ColumnNames(Rows(FirstAppearances(columns), key)) == NameSet(columns)
  {
    var kept := FirstAppearances(columns);
    FirstAppearancesNames(columns);
    forall i | 0 <= i < |kept|
      ensures kept[i] in columns
    {
      assert kept[i] in kept;
    }
    RowNames(kept, key);
    assert forall n :: n in NameSet(kept) <==> exists i :: 0 <= i < |kept| && kept[i].name == n;
  }

  lemma ClosedNext(c: Catalog, columns: seq<Column>, key: set<string>, next: TableSpec)
    requires PlainColumns(columns) && key <= NameSet(columns)
    requires PlainTable(next) && DistinctNames(next.columns)
    ensures Migrated(Closed(c, next.table, columns, key), next) == Closed(c, next.table, columns + next.columns, key)
  {
    ClosedNames(columns, key);
    FirstAppearancesSplit(columns, next.columns);
    var added := Missing(next.columns, NameSet(columns));
    MissingIs(next.columns, NameSet(columns));
    forall i | 0 <= i < |added|
      ensures Strip(added[i].name) !in key
    {
      assert added[i] in added && added[i] in next.columns;
      StripNulFree(added[i].name);
    }
    RowsConcat(FirstAppearances(columns), added, key);
    SameTables(c, next.table, columns, key);
  }

  lemma SameTables(c: Catalog, table: TableName, columns: seq<Column>, key: set<string>)
    ensures WithSchema(Closed(c, table, columns, key), table.schema) == Closed(c, table, columns, key)
  {
    assert c.schemas + {table.schema} + {table.schema} == c.schemas + {table.schema};
  }

  /**
   Over any history of well-formed specifications, from a table that does not exist: the columns are all
   the specifications' columns in order of first appearance, each as its first specification has it, and
   the key is the first specification's.
   */
  lemma {:induction false} TableHistoryClosedForm(c: Catalog, specs: seq<TableSpec>, table: TableName)
    requires table !in c.tables && specs != [] && OneTable(c, specs, table)
    ensures Run(c, specs) == Closed(c, table, AllColumns(specs), KeyOf(specs[0].columns))
  {
    var shorter, last := specs[..|specs| - 1], specs[|specs| - 1];
    if shorter == [] {
      assert AllColumns(specs) == last.columns;
      TableRunMigrates(c, [], last);
      ClosedFirst(c, last);
    } else {
      TableHistoryClosedForm(c, shorter, table);
      AllColumnsPlain(c, shorter, table);
      KeyNamesIn(c, shorter, table);
      TableRunMigrates(Run(c, shorter), [], last);
      ClosedNext(c, AllColumns(shorter), KeyOf(specs[0].columns), last);
    }
  }

  lemma {:induction false} MissingNone(columns: seq<Column>)
    ensures Missing(columns, {}) == columns
  {
    if columns != [] {
      MissingNone(columns[..|columns| - 1]);
    }
  }

  lemma {:induction false} AllColumnsPlain(c: Catalog, specs: seq<TableSpec>, table: TableName)
    requires OneTable(c, specs, table)
    ensures PlainColumns(AllColumns(specs))
  {
    if specs != [] {
      AllColumnsPlain(c, specs[..|specs| - 1], table);
    }
  }

  lemma {:induction false} KeyNamesIn(c: Catalog, specs: seq<TableSpec>, table: TableName)
    requires specs != [] && OneTable(c, specs, table)
    ensures KeyOf(specs[0].columns) <= NameSet(AllColumns(specs))
  {
    var shorter := specs[..|specs| - 1];
    if shorter == [] {
      KeyOfIs(specs[0].columns);
      forall n | n in KeyOf(specs[0].columns)
        ensures n in NameSet(AllColumns(specs))
      {
        var i :| 0 <= i < |specs[0].columns| && specs[0].columns[i].primaryKey && specs[0].columns[i].name == n;
        assert specs[0].columns[i] in AllColumns(specs);
      }
    } else {
      KeyNamesIn(c, shorter, table);
    }
  }

  lemma RowsPrefix(a: seq<Column>, b: seq<Column>, key: set<string>)
    ensures Rows(a, key) <= Rows(a + b, key)
  {
    assert Rows(a + b, key)[..|a|] == Rows(a, key);
  }

  lemma RowsGrow(columns: seq<Column>, more: seq<Column>, key: set<string>)
    requires DistinctNames(more)
    ensures Rows(FirstAppearances(columns), key) <= Rows(FirstAppearances(columns + more), key)
  {
    FirstAppearancesSplit(columns, more);
    RowsPrefix(FirstAppearances(columns), Missing(more, NameSet(columns)), key);
  }

  lemma {:induction false} NothingMissing(columns: seq<Column>, names: set<string>)
    requires forall c :: c in columns ==> c.name in names
    ensures Missing(columns, names) == []
  {
    if columns != [] {
      NothingMissing(columns[..|columns| - 1], names);
      assert columns[|columns| - 1] in columns;
    }
  }

  lemma NothingNew(columns: seq<Column>, more: seq<Column>)
    requires DistinctNames(more) && forall c :: c in more ==> c in columns
    ensures FirstAppearances(columns + more) == FirstAppearances(columns)
  {
    FirstAppearancesSplit(columns, more);
    NothingMissing(more, NameSet(columns));
  }

  /** No column is ever removed or changed, and repeating the last specification adds nothing. */
  lemma HistoryOnlyGrows(c: Catalog, specs: seq<TableSpec>, next: TableSpec, table: TableName)
    requires table !in c.tables && specs != [] && OneTable(c, specs + [next], table)
    ensures table in Run(c, specs).tables && table in Run(c, specs + [next]).tables
    ensures Run(c, specs).tables[table].columns <= Run(c, specs + [next]).tables[table].columns
    ensures next == specs[|specs| - 1] ==> Run(c, specs + [next]) == Run(c, specs)
  {
    var longer := specs + [next];
    assert longer[..|longer| - 1] == specs && longer[0] == specs[0];
    forall i | 0 <= i < |specs|
      ensures specs[i] == longer[i]
    {
    }
    assert next == longer[|specs|];
    TableHistoryClosedForm(c, specs, table);
    TableHistoryClosedForm(c, longer, table);
    assert AllColumns(longer) == AllColumns(specs) + next.columns;
    RowsGrow(AllColumns(specs), next.columns, KeyOf(specs[0].columns));
    if next == specs[|specs| - 1] {
      assert AllColumns(specs) == AllColumns(specs[..|specs| - 1]) + next.columns;
      NothingNew(AllColumns(specs), next.columns);
    }
  }

  // ---------------------------------------------------------------------------------------------------
  // Histories with failures
  // ---------------------------------------------------------------------------------------------------

  datatype Attempt = Attempt(spec: TableSpec, fates: seq<Fate>)

  /** One attempt after the other. */
  function Attempts(c: Catalog, attempts: seq<Attempt>): Catalog {
    if attempts == [] then c
    else
      var last := attempts[|attempts| - 1];
      TableRun(Attempts(c, attempts[..|attempts| - 1]), last.fates, last.spec).0
  }

  /** The specifications of the attempts that took effect. */
  function Effective(c: Catalog, attempts: seq<Attempt>): seq<TableSpec> {
    if attempts == [] then []
    else
      var shorter, last := attempts[..|attempts| - 1], attempts[|attempts| - 1];
      Effective(c, shorter) + if TakesEffect(Attempts(c, shorter), last.fates, last.spec) then [last.spec] else []
  }

  predicate OneTableAttempts(c: Catalog, attempts: seq<Attempt>, table: TableName) {
    forall i :: 0 <= i < |attempts| ==> attempts[i].spec.table == table && WellFormed(c, attempts[i].spec)
  }

  /** The tables after specifications that all took effect. */
  function ClosedTables(c: Catalog, table: TableName, specs: seq<TableSpec>): map<TableName, TableEntry> {
    if specs == [] then c.tables else Closed(c, table, AllColumns(specs), KeyOf(specs[0].columns)).tables
  }

  lemma AllColumnsSnoc(specs: seq<TableSpec>, next: TableSpec)
    ensures AllColumns(specs + [next]) == AllColumns(specs) + next.columns
  {
    assert (specs + [next])[..|specs|] == specs;
  }

  lemma ClosedTablesFirst(c: Catalog, now: Catalog, next: TableSpec)
    requires next.table !in c.tables && WellFormed(c, next) && now.tables == c.tables
    ensures Migrated(now, next).tables == ClosedTables(c, next.table, [next])
  {
    AllColumnsSnoc([], next);
    assert [] + [next] == [next] && AllColumns([]) + next.columns == next.columns;
    ClosedFirst(c, next);
    SameMigration(now, c, next);
  }

  lemma ClosedTablesNext(c: Catalog, now: Catalog, table: TableName, specs: seq<TableSpec>, next: TableSpec)
    requires table !in c.tables && OneTable(c, specs, table) && next.table == table && WellFormed(c, next)
    requires now.tables == ClosedTables(c, table, specs)
    ensures Migrated(now, next).tables == ClosedTables(c, table, specs + [next])
  {
    if specs == [] {
      ClosedTablesFirst(c, now, next);
      assert specs + [next] == [next];
    } else {
      var before := Closed(c, table, AllColumns(specs), KeyOf(specs[0].columns));
      AllColumnsSnoc(specs, next);
      AllColumnsPlain(c, specs, table);
      KeyNamesIn(c, specs, table);
      ClosedNext(c, AllColumns(specs), KeyOf(specs[0].columns), next);
      SameMigration(now, before, next);
      assert (specs + [next])[0] == specs[0];
    }
  }

  lemma SameMigration(a: Catalog, b: Catalog, spec: TableSpec)
    requires a.tables == b.tables
    ensures Migrated(a, spec).tables == Migrated(b, spec).tables
  {
  }

  /**
   The same closed form over any history of attempts, whatever failed in them and wherever they stopped:
   only the specifications that took effect count.
   */
  lemma {:induction false} AttemptsClosedForm(c: Catalog, attempts: seq<Attempt>, table: TableName)
    requires table !in c.tables && OneTableAttempts(c, attempts, table)
    ensures OneTable(c, Effective(c, attempts), table)
    ensures Attempts(c, attempts).types == c.types
    ensures Attempts(c, attempts).tables == ClosedTables(c, table, Effective(c, attempts))
  {
    if attempts != [] {
      var shorter, last := attempts[..|attempts| - 1], attempts[|attempts| - 1];
      AttemptsClosedForm(c, shorter, table);
      AttemptEffect(Attempts(c, shorter), last.fates, last.spec);
      ClosedTablesNext(c, Attempts(c, shorter), table, Effective(c, shorter), last.spec);
      assert Effective(c, shorter) + [] == Effective(c, shorter);
    }
  }
}
