/**
 The text of CREATE SCHEMA, CREATE TABLE and ALTER TABLE ... ADD COLUMN, and the proof that reading the
 text gives the statement back. For CREATE TABLE this goes as far as the resource it was printed from.
 */
module TableSql {
  import opened Wrappers
  import opened SqlText
  import opened Specs
  import opened SqlGrammar

  function CreateSchemaText(schema: string): string {
    "CREATE SCHEMA IF NOT EXISTS " + Sanitize([schema])
  }

  function ColumnText(c: Column): string {
    Join([Sanitize([c.name]), Sanitize([c.dataType])] + (if c.nullable then [] else ["NOT NULL"]), " ")
  }

  /** The names of the primary key's columns, in column order. */
  function KeyNames(columns: seq<Column>): seq<string> {
    if columns == [] then []
    else (if columns[0].primaryKey then [columns[0].name] else []) + KeyNames(columns[1..])
  }

  function ColumnTexts(columns: seq<Column>): seq<string> {
    seq(|columns|, i requires 0 <= i < |columns| => ColumnText(columns[i]))
  }

  function KeyTexts(keys: seq<string>): seq<string> {
    if keys == [] then [] else ["PRIMARY KEY (" + Join(QuotedParts(keys), ", ") + ")"]
  }

  function CreateTableText(spec: TableSpec): string {
    "CREATE TABLE " + Sanitize(spec.table.Ident()) + " (" +
    Join(ColumnTexts(spec.columns) + KeyTexts(KeyNames(spec.columns)), ",\n") + ")"
  }

  function AddColumnText(table: TableName, c: Column): string {
    Join(["ALTER TABLE " + Sanitize(table.Ident()) + " ADD COLUMN " + Sanitize([c.name]) + " " + Sanitize([c.dataType])]
         + (if c.nullable then [] else ["NOT NULL"]), " ")
  }

  // ---------------------------------------------------------------------------------------------------
  // Columns and keys
  // ---------------------------------------------------------------------------------------------------

  /** A column's clause, as the database understands it. */
  function ItemOf(c: Column): TableItem {
    ColumnItem(Strip(c.name), Strip(c.dataType), !c.nullable)
  }

  function KeyItems(keys: seq<string>): seq<TableItem> {
    if keys == [] then [] else [KeyItem(CleanNames(keys))]
  }

  function ItemsOf(columns: seq<Column>): seq<TableItem> {
    seq(|columns|, i requires 0 <= i < |columns| => ItemOf(columns[i])) + KeyItems(KeyNames(columns))
  }

  function ItemTokens(item: TableItem): seq<Token> {
    match item
    case ColumnItem(name, dataType, notNull) =>
      [Name(name), Name(dataType)] + (if notNull then [Word("NOT"), Word("NULL")] else [])
    case KeyItem(names) =>
      [Word("PRIMARY"), Word("KEY"), Symbol('(')] + Separated(SingleNames(names), ',') + [Symbol(')')]
  }

  function SingleNames(names: seq<string>): seq<seq<Token>> {
    seq(|names|, i requires 0 <= i < |names| => [Name(names[i])])
  }

  function ItemsTokens(items: seq<TableItem>): seq<seq<Token>> {
    seq(|items|, i requires 0 <= i < |items| => ItemTokens(items[i]))
  }

  /** Two quoted names with a space between them. */
  lemma ReadsPair(a: string, b: string)
    ensures Reads(Sanitize([a]) + " " + Sanitize([b]), [Name(Strip(a)), Name(Strip(b))], false)
  {
    OneName(a);
    OneName(b);
    ReadsPhrase([], [a]);
    ReadsSanitized([b]);
    assert Spaced([]) + Sanitize([a]) + " " == Sanitize([a]) + " ";
    assert Words([]) + IdentTokens([a]) == [Name(Strip(a))];
    ReadsThen(Sanitize([a]) + " ", [Name(Strip(a))], true, Sanitize([b]), [Name(Strip(b))], false);
    assert [Name(Strip(a))] + [Name(Strip(b))] == [Name(Strip(a)), Name(Strip(b))];
  }

  lemma ReadsNotNull()
    ensures Reads(" NOT NULL", [Word("NOT"), Word("NULL")], false)
  {
    ReadsSpace();
    ReadsSpaced(["NOT"]);
    ReadsWord("NULL");
    ReadsThen(Spaced(["NOT"]), Words(["NOT"]), true, "NULL", [Word("NULL")], false);
    ReadsThen(" ", [], true, Spaced(["NOT"]) + "NULL", Words(["NOT"]) + [Word("NULL")], false);
    assert " " + (Spaced(["NOT"]) + "NULL") == " NOT NULL";
    assert [] + (Words(["NOT"]) + [Word("NULL")]) == [Word("NOT"), Word("NULL")];
  }

  /** A name and a type, and NOT NULL when the column is not nullable. */
  function ClauseText(c: Column): string {
    Sanitize([c.name]) + " " + Sanitize([c.dataType]) + (if c.nullable then "" else " NOT NULL")
  }

  lemma ColumnTextIs(c: Column)
    ensures ColumnText(c) == ClauseText(c)
  {
    var a, b := Sanitize([c.name]), Sanitize([c.dataType]);
    if c.nullable {
      assert [a, b] + [] == [a, b] && [a, b][1..] == [b];
      assert Join([a, b], " ") == a + " " + Join([b], " ");
    } else {
      assert [a, b] + ["NOT NULL"] == [a, b, "NOT NULL"];
      assert [a, b, "NOT NULL"][1..] == [b, "NOT NULL"] && [b, "NOT NULL"][1..] == ["NOT NULL"];
      assert Join([b, "NOT NULL"], " ") == b + " " + Join(["NOT NULL"], " ");
    }
  }

  lemma ReadsClause(c: Column)
    ensures Reads(ClauseText(c), ItemTokens(ItemOf(c)), false)
  {
    ReadsPair(c.name, c.dataType);
    if c.nullable {
      assert ClauseText(c) == Sanitize([c.name]) + " " + Sanitize([c.dataType]);
      assert ItemTokens(ItemOf(c)) == [Name(Strip(c.name)), Name(Strip(c.dataType))];
    } else {
      ReadsNotNull();
      ReadsThen(Sanitize([c.name]) + " " + Sanitize([c.dataType]), [Name(Strip(c.name)), Name(Strip(c.dataType))],
                false,
                " NOT NULL", [Word("NOT"), Word("NULL")], false);
    }
  }

  lemma ReadsKey(keys: seq<string>)
    requires keys != []
    ensures Reads(KeyTexts(keys)[0], ItemTokens(KeyItem(CleanNames(keys))), false)
  {
    var names := Join(QuotedParts(keys), ", ");
    ReadsSpaced(["PRIMARY", "KEY"]);
    ReadsSymbol('(');
    ReadsThen(Spaced(["PRIMARY", "KEY"]), Words(["PRIMARY", "KEY"]), true, "(", [Symbol('(')], true);
    forall i | 0 <= i < |keys|
      ensures Reads(QuotedParts(keys)[i], NameTokens(keys)[i], false)
    {
      ReadsQuoted(keys[i]);
    }
    ReadsComma();
    ReadsJoined(QuotedParts(keys), NameTokens(keys), ", ", ',');
    assert NameTokens(keys) == SingleNames(CleanNames(keys));
    ReadsSymbol(')');
    ReadsThen(names, Separated(NameTokens(keys), ','), false, ")", [Symbol(')')], true);
    ReadsThen(Spaced(["PRIMARY", "KEY"]) + "(", Words(["PRIMARY", "KEY"]) + [Symbol('(')], true,
              names + ")", Separated(NameTokens(keys), ',') + [Symbol(')')], true);
    assert Spaced(["PRIMARY", "KEY"]) + "(" + (names + ")") == KeyTexts(keys)[0] by {
      assert Spaced(["PRIMARY", "KEY"]) == "PRIMARY KEY ";
    }
    assert Words(["PRIMARY", "KEY"]) + [Symbol('(')] + (Separated(NameTokens(keys), ',') + [Symbol(')')])
        == ItemTokens(KeyItem(CleanNames(keys)));
  }

  function BodyTexts(columns: seq<Column>): seq<string> {
    ColumnTexts(columns) + KeyTexts(KeyNames(columns))
  }

  lemma ReadsBody(columns: seq<Column>)
    requires columns != []
    ensures Reads(Join(BodyTexts(columns), ",\n"), Separated(ItemsTokens(ItemsOf(columns)), ','), false)
  {
    var texts, items := BodyTexts(columns), ItemsOf(columns);
    forall i | 0 <= i < |texts|
      ensures Reads(texts[i], ItemsTokens(items)[i], false)
    {
      if i < |columns| {
        ColumnTextIs(columns[i]);
        ReadsClause(columns[i]);
      } else {
        ReadsKey(KeyNames(columns));
      }
    }
    ReadsCommaLine();
    ReadsJoined(texts, ItemsTokens(items), ",\n", ',');
  }

  // ---------------------------------------------------------------------------------------------------
  // The parser undoes the printers
  // ---------------------------------------------------------------------------------------------------

  lemma {:induction false} ParseSingleNames(names: seq<string>, rest: seq<Token>)
    requires names != [] && !StartsWith(rest, ',')
    ensures ParseNames(Separated(SingleNames(names), ',') + rest) == Some((names, rest))
  {
    var ts := Separated(SingleNames(names), ',') + rest;
    if |names| == 1 {
      assert ts == [Name(names[0])] + rest && names == [names[0]];
      assert ts[1..] == rest;
    } else {
      ParseSingleNames(names[1..], rest);
      assert SingleNames(names)[1..] == SingleNames(names[1..]);
      assert ts == [Name(names[0]), Symbol(',')] + (Separated(SingleNames(names[1..]), ',') + rest);
      assert ts[2..] == Separated(SingleNames(names[1..]), ',') + rest;
      assert names == [names[0]] + names[1..];
    }
  }

  /** What may follow an item: a comma or a closing parenthesis. */
  predicate EndsItem(rest: seq<Token>) {
    rest == [] || StartsWith(rest, ',') || StartsWith(rest, ')')
  }

  lemma ParseNullableUndoes(name: string, dataType: string, rest: seq<Token>)
    requires EndsItem(rest)
    ensures ParseItem(ItemTokens(ColumnItem(name, dataType, false)) + rest)
            == Some((ColumnItem(name, dataType, false), rest))
  {
    assert (ItemTokens(ColumnItem(name, dataType, false)) + rest)[2..] == rest;
  }

  lemma ParseNotNullUndoes(name: string, dataType: string, rest: seq<Token>)
    ensures ParseItem(ItemTokens(ColumnItem(name, dataType, true)) + rest)
            == Some((ColumnItem(name, dataType, true), rest))
  {
    assert (ItemTokens(ColumnItem(name, dataType, true)) + rest)[4..] == rest;
  }

  lemma ParseKeyUndoes(names: seq<string>, rest: seq<Token>)
    requires names != []
    ensures ParseItem(ItemTokens(KeyItem(names)) + rest) == Some((KeyItem(names), rest))
  {
    var ts, after := ItemTokens(KeyItem(names)) + rest, [Symbol(')')] + rest;
    assert ts[3..] == Separated(SingleNames(names), ',') + after;
    ParseSingleNames(names, after);
    assert after[1..] == rest;
  }

  lemma ParseItemUndoes(item: TableItem, rest: seq<Token>)
    requires item.KeyItem? ==> item.columns != []
    requires EndsItem(rest)
    ensures ParseItem(ItemTokens(item) + rest) == Some((item, rest))
  {
    match item
    case ColumnItem(name, dataType, notNull) =>
      if notNull {
        ParseNotNullUndoes(name, dataType, rest);
      } else {
        ParseNullableUndoes(name, dataType, rest);
      }
    case KeyItem(names) => ParseKeyUndoes(names, rest);
  }

  lemma ParseItemsLast(ts: seq<Token>, item: TableItem, rest: seq<Token>)
    requires ParseItem(ts) == Some((item, rest)) && !StartsWith(rest, ',')
    ensures ParseItems(ts) == Some(([item], rest))
  {
  }

  lemma ParseItemsCons(ts: seq<Token>, item: TableItem, tail: seq<Token>, more: seq<TableItem>, after: seq<Token>)
    requires ParseItem(ts) == Some((item, [Symbol(',')] + tail))
    requires ParseItems(tail) == Some((more, after))
    ensures ParseItems(ts) == Some(([item] + more, after))
  {
    assert ([Symbol(',')] + tail)[1..] == tail;
  }

  lemma ItemsSplit(items: seq<TableItem>, rest: seq<Token>)
    requires |items| > 1
    ensures Separated(ItemsTokens(items), ',') + rest
         == ItemTokens(items[0]) + ([Symbol(',')] + (Separated(ItemsTokens(items[1..]), ',') + rest))
  {
    assert ItemsTokens(items)[1..] == ItemsTokens(items[1..]);
    var head, tail := ItemTokens(items[0]), Separated(ItemsTokens(items[1..]), ',');
    assert head + [Symbol(',')] + tail + rest == head + ([Symbol(',')] + (tail + rest));
  }

  lemma {:induction false} ParseItemsUndoes(items: seq<TableItem>, rest: seq<Token>)
    requires items != [] && StartsWith(rest, ')')
    requires forall i :: 0 <= i < |items| && items[i].KeyItem? ==> items[i].columns != []
    ensures ParseItems(Separated(ItemsTokens(items), ',') + rest) == Some((items, rest))
  {
    var ts := Separated(ItemsTokens(items), ',') + rest;
    if |items| == 1 {
      ParseItemUndoes(items[0], rest);
      ParseItemsLast(ts, items[0], rest);
      assert items == [items[0]];
    } else {
      var tail := Separated(ItemsTokens(items[1..]), ',') + rest;
      ParseItemsUndoes(items[1..], rest);
      ItemsSplit(items, rest);
      ParseItemUndoes(items[0], [Symbol(',')] + tail);
      ParseItemsCons(ts, items[0], tail, items[1..], rest);
      assert items == [items[0]] + items[1..];
    }
  }

  function ParenthesizedTokens(items: seq<TableItem>): seq<Token> {
    [Symbol('(')] + (Separated(ItemsTokens(items), ',') + [Symbol(')')])
  }

  lemma ReadsParenthesized(columns: seq<Column>)
    ensures Reads("(" + (Join(BodyTexts(columns), ",\n") + ")"), ParenthesizedTokens(ItemsOf(columns)), true)
  {
    ReadsSymbol('(');
    ReadsSymbol(')');
    var body, tokens := Join(BodyTexts(columns), ",\n"), Separated(ItemsTokens(ItemsOf(columns)), ',');
    if columns == [] {
      assert body == "" && tokens == [];
      assert body + ")" == ")" && tokens + [Symbol(')')] == [Symbol(')')];
    } else {
      ReadsBody(columns);
      ReadsThen(body, tokens, false, ")", [Symbol(')')], true);
    }
    ReadsThen("(", [Symbol('(')], true, body + ")", tokens + [Symbol(')')], true);
  }

  lemma ParsesCreateTable(ts: seq<Token>)
    ensures Parse(Words(["CREATE", "TABLE"]) + ts) == ParseCreateTable(ts)
  {
    assert (Words(["CREATE", "TABLE"]) + ts)[2..] == ts;
  }

  lemma ParseCreateTableUndoes(table: TableName, items: seq<TableItem>)
    requires forall i :: 0 <= i < |items| && items[i].KeyItem? ==> items[i].columns != []
    ensures ParseCreateTable(IdentTokens(table.Ident()) + ParenthesizedTokens(items))
            == Some(CreateTable(table.Clean(), items))
  {
    var rest := ParenthesizedTokens(items);
    ParseTableUndoes(table, rest);
    if items == [] {
      assert rest == [Symbol('('), Symbol(')')];
    } else {
      assert rest[1..] == Separated(ItemsTokens(items), ',') + [Symbol(')')];
      ParseItemsUndoes(items, [Symbol(')')]);
      assert rest != [Symbol('('), Symbol(')')] by {
        if rest == [Symbol('('), Symbol(')')] {
          assert false;
        }
      }
    }
  }

  // Keyword phrases, as their words are spelled.

  lemma CreateTablePhrase()
    ensures Spaced(["CREATE", "TABLE"]) == "CREATE TABLE "
    ensures " " + "(" == " ("
  {
  }

  lemma CreateSchemaPhrase()
    ensures Spaced(["CREATE", "SCHEMA", "IF", "NOT", "EXISTS"]) == "CREATE SCHEMA IF NOT EXISTS "
  {
  }

  lemma AlterTablePhrase()
    ensures Spaced(["ALTER", "TABLE"]) == "ALTER TABLE "
  {
  }

  lemma AddColumnPhrase()
    ensures " " + Spaced(["ADD", "COLUMN"]) == " ADD COLUMN "
  {
  }

  lemma Parenthesized(a: string, b: string, c: string, d: string, e: string, f: string)
    ensures a + b + (c + d) + e + f == a + b + c + (d + (e + f))
  {
  }

  lemma CreateTableShape(spec: TableSpec)
    ensures CreateTableText(spec)
         == Spaced(["CREATE", "TABLE"]) + Sanitize(spec.table.Ident()) + " "
           + ("(" + (Join(BodyTexts(spec.columns), ",\n") + ")"))
  {
    CreateTablePhrase();
    Parenthesized("CREATE TABLE ", Sanitize(spec.table.Ident()), " ", "(", Join(BodyTexts(spec.columns), ",\n"), ")");
  }

  lemma CreateTableReads(spec: TableSpec)
    ensures Read(CreateTableText(spec))
         == Parse(Words(["CREATE", "TABLE"])
                  + (IdentTokens(spec.table.Ident()) + ParenthesizedTokens(ItemsOf(spec.columns))))
  {
    var text, tokens := "(" + (Join(BodyTexts(spec.columns), ",\n") + ")"), ParenthesizedTokens(ItemsOf(spec.columns));
    ReadsParenthesized(spec.columns);
    ReadsStatement(["CREATE", "TABLE"], spec.table.Ident(), text, tokens, true);
    CreateTableShape(spec);
  }

  /** CREATE TABLE as written reads as CREATE TABLE with the same columns and key, in the same order. */
  lemma ReadCreateTable(spec: TableSpec)
    ensures Read(CreateTableText(spec)) == Some(CreateTable(spec.table.Clean(), ItemsOf(spec.columns)))
  {
    CreateTableReads(spec);
    ParsesCreateTable(IdentTokens(spec.table.Ident()) + ParenthesizedTokens(ItemsOf(spec.columns)));
    ParseCreateTableUndoes(spec.table, ItemsOf(spec.columns));
  }

  lemma CreateSchemaReads(schema: string)
    ensures Read(CreateSchemaText(schema))
            == Parse(Words(["CREATE", "SCHEMA", "IF", "NOT", "EXISTS"]) + [Name(Strip(schema))])
  {
    var words := ["CREATE", "SCHEMA", "IF", "NOT", "EXISTS"];
    OneName(schema);
    ReadsPhrase(words, [schema]);
    CreateSchemaPhrase();
    ReadIs(CreateSchemaText(schema), Words(words) + [Name(Strip(schema))], false);
  }

  lemma ReadCreateSchema(schema: string)
    ensures Read(CreateSchemaText(schema)) == Some(CreateSchema(Strip(schema)))
  {
    CreateSchemaReads(schema);
    ParsesCreateSchema(Strip(schema));
  }

  lemma ParsesCreateSchema(schema: string)
    ensures Parse(Words(["CREATE", "SCHEMA", "IF", "NOT", "EXISTS"]) + [Name(schema)]) == Some(CreateSchema(schema))
  {
  }

  lemma ParsesAddColumn(ts: seq<Token>)
    ensures Parse(Words(["ALTER", "TABLE"]) + ts) == ParseAddColumn(ts)
  {
    assert (Words(["ALTER", "TABLE"]) + ts)[2..] == ts;
  }

  lemma JoinOptional(head: string, c: Column)
    ensures Join([head] + (if c.nullable then [] else ["NOT NULL"]), " ")
            == head + (if c.nullable then "" else " NOT NULL")
  {
    if c.nullable {
      assert [head] + [] == [head];
    } else {
      assert [head] + ["NOT NULL"] == [head, "NOT NULL"] && [head, "NOT NULL"][1..] == ["NOT NULL"];
      assert Join([head, "NOT NULL"], " ") == head + " " + Join(["NOT NULL"], " ");
      assert " " + "NOT NULL" == " NOT NULL";
    }
  }

  lemma AddColumnGroups(at: string, t: string, sp: string, ac: string, n: string, d: string, suffix: string)
    ensures at + t + (sp + ac) + n + " " + d + suffix == at + t + sp + (ac + (n + " " + d + suffix))
  {
  }

  lemma AddColumnShape(table: TableName, c: Column)
    ensures AddColumnText(table, c)
         == Spaced(["ALTER", "TABLE"]) + Sanitize(table.Ident()) + " " + (Spaced(["ADD", "COLUMN"]) + ClauseText(c))
  {
    var t, n, d := Sanitize(table.Ident()), Sanitize([c.name]), Sanitize([c.dataType]);
    AlterTablePhrase();
    AddColumnPhrase();
    JoinOptional("ALTER TABLE " + t + " ADD COLUMN " + n + " " + d, c);
    AddColumnGroups("ALTER TABLE ", t, " ", Spaced(["ADD", "COLUMN"]), n, d, if c.nullable then "" else " NOT NULL");
  }

  lemma ReadAddColumn(table: TableName, c: Column)
    ensures Read(AddColumnText(table, c)) == Some(AddColumn(table.Clean(), ItemOf(c)))
  {
    var tokens := Words(["ADD", "COLUMN"]) + ItemTokens(ItemOf(c));
    ReadsSpaced(["ADD", "COLUMN"]);
    ReadsClause(c);
    ReadsThen(Spaced(["ADD", "COLUMN"]), Words(["ADD", "COLUMN"]), true, ClauseText(c), ItemTokens(ItemOf(c)), false);
    ReadsStatement(["ALTER", "TABLE"], table.Ident(), Spaced(["ADD", "COLUMN"]) + ClauseText(c), tokens, false);
    AddColumnShape(table, c);
    ParsesAddColumn(IdentTokens(table.Ident()) + tokens);
    ParseAddColumnUndoes(table, ItemOf(c));
  }

  lemma ParseAddColumnUndoes(table: TableName, item: TableItem)
    requires item.ColumnItem?
    ensures ParseAddColumn(IdentTokens(table.Ident()) + (Words(["ADD", "COLUMN"]) + ItemTokens(item)))
         == Some(AddColumn(table.Clean(), item))
  {
    var rest := Words(["ADD", "COLUMN"]) + ItemTokens(item);
    ParseTableUndoes(table, rest);
    assert rest[2..] == ItemTokens(item) + [];
    ParseItemUndoes(item, []);
  }

  // ---------------------------------------------------------------------------------------------------
  // From the statement back to the resource
  // ---------------------------------------------------------------------------------------------------

  /** The columns a CREATE TABLE statement describes, in order. */
  function DescribedColumns(items: seq<TableItem>, keys: set<string>): seq<Column> {
    if items == [] then []
    else
      (match items[0]
       case ColumnItem(name, dataType, notNull) => [Column(name, dataType, !notNull, name in keys)]
       case KeyItem(_) => []) + DescribedColumns(items[1..], keys)
  }

  function Described(s: Statement): Option<TableSpec> {
    match s
    case CreateTable(table, items) => Some(TableSpec(table, DescribedColumns(items, ItemKeys(items))))
    case _ => None
  }

  predicate DistinctNames(columns: seq<Column>) {
    forall i, j :: 0 <= i < j < |columns| ==> columns[i].name != columns[j].name
  }

  predicate PlainColumns(columns: seq<Column>) {
    forall i :: 0 <= i < |columns| ==> NulFree(columns[i].name) && NulFree(columns[i].dataType)
  }

  predicate PlainTable(spec: TableSpec) {
    NulFree(spec.table.schema) && NulFree(spec.table.name) && PlainColumns(spec.columns)
  }

  lemma {:induction false} KeyNamesAre(columns: seq<Column>)
    ensures forall name :: name in KeyNames(columns) <==>
              exists i :: 0 <= i < |columns| && columns[i].primaryKey && columns[i].name == name
  {
    if columns != [] {
      KeyNamesAre(columns[1..]);
      forall name
        ensures name in KeyNames(columns) <==>
                exists i :: 0 <= i < |columns| && columns[i].primaryKey && columns[i].name == name
      {
        if name in KeyNames(columns[1..]) {
          var i :| 0 <= i < |columns| - 1 && columns[1..][i].primaryKey && columns[1..][i].name == name;
          assert columns[i + 1].name == name;
        }
        if i :| 0 <= i < |columns| && columns[i].primaryKey && columns[i].name == name {
          if i > 0 {
            assert columns[1..][i - 1].name == name;
          }
        }
      }
    }
  }

  lemma {:induction false} DescribedColumnsAre(columns: seq<Column>, key: seq<TableItem>, keys: set<string>)
    requires PlainColumns(columns)
    requires forall i :: 0 <= i < |columns| ==> (columns[i].primaryKey <==> columns[i].name in keys)
    requires forall i :: 0 <= i < |key| ==> key[i].KeyItem?
    requires |key| <= 1
    ensures DescribedColumns(seq(|columns|, i requires 0 <= i < |columns| => ItemOf(columns[i])) + key, keys) == columns
  {
    var items := seq(|columns|, i requires 0 <= i < |columns| => ItemOf(columns[i])) + key;
    if columns == [] {
      if key != [] {
        assert items[1..] == [];
      }
    } else {
      var tail := columns[1..];
      assert items[1..] == seq(|tail|, i requires 0 <= i < |tail| => ItemOf(tail[i])) + key;
      DescribedColumnsAre(tail, key, keys);
      StripNulFree(columns[0].name);
      StripNulFree(columns[0].dataType);
      assert columns == [columns[0]] + tail;
    }
  }

  /** Reading CREATE TABLE back gives the schema, the name, and every column with its flags, in order. */
  lemma CreateTableRoundTrip(spec: TableSpec)
    requires PlainTable(spec) && DistinctNames(spec.columns)
    ensures Read(CreateTableText(spec)).Some?
    ensures Described(Read(CreateTableText(spec)).value) == Some(spec)
  {
    ReadCreateTable(spec);
    StripNulFree(spec.table.schema);
    StripNulFree(spec.table.name);
    var columns := spec.columns;
    var names := KeyNames(columns);
    KeyNamesAre(columns);
    forall i | 0 <= i < |names|
      ensures CleanNames(names)[i] == names[i]
    {
      assert names[i] in names;
      StripNulFree(names[i]);
    }
    assert CleanNames(names) == names;
    var items := ItemsOf(columns);
    assert forall name :: name in names ==> KeyItem(names) in items by {
      if names != [] {
        assert items[|columns|] == KeyItem(names);
      }
    }
    assert forall item :: item in items && item.KeyItem? ==> item == KeyItem(names);
    assert forall name :: name in ItemKeys(items) <==> name in names;
    forall i | 0 <= i < |columns|
      ensures columns[i].primaryKey <==> columns[i].name in ItemKeys(items)
    {
      if columns[i].name in names {
        var j :| 0 <= j < |columns| && columns[j].primaryKey && columns[j].name == columns[i].name;
        assert i == j;
      }
    }
    DescribedColumnsAre(columns, KeyItems(names), ItemKeys(items));
  }

  /** Hence different resources are never printed the same way. */
  lemma CreateTableInjective(a: TableSpec, b: TableSpec)
    requires PlainTable(a) && DistinctNames(a.columns)
    requires PlainTable(b) && DistinctNames(b.columns)
    requires CreateTableText(a) == CreateTableText(b)
    ensures a == b
  {
    CreateTableRoundTrip(a);
    CreateTableRoundTrip(b);
  }
}
