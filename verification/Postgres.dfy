/**
 PostgreSQL as the controllers see it: a catalog that statements change, and a connection on which any
 statement may fail. The rules in this file are assumptions about the server.
 */
module Postgres {
  import opened Wrappers
  import opened SqlText
  import opened Specs
  import opened SqlGrammar
  import opened PublicationSql

  // ---------------------------------------------------------------------------------------------------
  // The catalog
  // ---------------------------------------------------------------------------------------------------

  datatype Coverage = Everything | Listed(tables: set<TableName>)

  /** A row of pg_publication, with its tables. */
  datatype Entry = Entry(coverage: Coverage, operations: set<string>)

  datatype ColumnEntry = ColumnEntry(name: string, dataType: string, nullable: bool)

  datatype TableEntry = TableEntry(columns: seq<ColumnEntry>, key: set<string>)

  datatype Catalog = Catalog(
    publications: map<string, Entry>,
    schemas: set<string>,
    types: set<string>,
    tables: map<TableName, TableEntry>,
    grants: set<Statement>)

  datatype Code = DuplicateObject | DuplicateTable | DuplicateColumn | Undefined | InvalidDefinition | SyntaxError

  function Find<K, V>(m: map<K, V>, k: K): Option<V> {
    if k in m then Some(m[k]) else None
  }

  function Put<K, V>(m: map<K, V>, k: K, v: Option<V>): map<K, V> {
    match v
    case None => m - {k}
    case Some(x) => m[k := x]
  }

  /** The operations a publish value stands for; leaving it out means all of them. */
  function PublishSet(publish: Option<string>): Option<set<string>> {
    match publish
    case None => Some(OPERATIONS)
    case Some(value) =>
      match ReadPublish(value)
      case None => None
      case Some(operations) => Some(set op | op in operations)
  }

  predicate IsPublicationStatement(s: Statement) {
    s.CreatePublication? || s.SetTables? || s.SetPublish? || s.DropPublication?
  }

  /** What a statement does to the entry it names, when `known` are the tables that exist. */
  function EntryAfter(e: Option<Entry>, known: set<TableName>, s: Statement): (Option<Entry>, Option<Code>)
    requires IsPublicationStatement(s)
  {
    match s
    case CreatePublication(_, scope, publish) =>
      if e.Some? then (e, Some(DuplicateObject))
      else if PublishSet(publish).None? then (e, Some(InvalidDefinition))
      else if scope.OnlyTables? && !(TableSet(scope.tables) <= known) then (e, Some(Undefined))
      else (Some(Entry(if scope.AllTables? then Everything
                       else Listed(TableSet(scope.tables)), PublishSet(publish).value)), None)
    case SetTables(_, tables) =>
      if e.None? then (e, Some(Undefined))
      else if e.value.coverage.Everything? then (e, Some(InvalidDefinition))
      else if !(TableSet(tables) <= known) then (e, Some(Undefined))
      else (Some(e.value.(coverage := Listed(TableSet(tables)))), None)
    case SetPublish(_, value) =>
      if e.None? then (e, Some(Undefined))
      else if PublishSet(Some(value)).None? then (e, Some(InvalidDefinition))
      else (Some(e.value.(operations := PublishSet(Some(value)).value)), None)
    case DropPublication(_) =>
      if e.None? then (e, Some(Undefined)) else (None, None)
  }

  function ItemNames(items: seq<TableItem>): seq<string> {
    if items == [] then []
    else (if items[0].ColumnItem? then [items[0].name] else []) + ItemNames(items[1..])
  }

  /** The columns a new table gets: those of the primary key are NOT NULL whatever their clause says. */
  function NewColumns(items: seq<TableItem>, key: set<string>): seq<ColumnEntry> {
    if items == [] then []
    else
      (match items[0]
       case ColumnItem(name, dataType, notNull) => [ColumnEntry(name, dataType, !notNull && name !in key)]
       case KeyItem(_) => []) + NewColumns(items[1..], key)
  }

  predicate KnownTypes(items: seq<TableItem>, types: set<string>) {
    forall item :: item in items && item.ColumnItem? ==> item.dataType in types
  }

  function ColumnNames(columns: seq<ColumnEntry>): set<string> {
    set c | c in columns :: c.name
  }

  /** What a statement does to the catalog. A statement that is refused changes nothing. */
  function Apply(c: Catalog, s: Statement): (r: (Catalog, Option<Code>))
  {
    match s
    case CreateSchema(schema) => (c.(schemas := c.schemas + {schema}), None)
    case CreateTable(table, items) =>
      if table.schema !in c.schemas || !KnownTypes(items, c.types) then (c, Some(Undefined))
      else if !Distinct(ItemNames(items)) then (c, Some(DuplicateColumn))
      else if exists key :: key in ItemKeys(items) && key !in ItemNames(items) then (c, Some(Undefined))
      else if table in c.tables then (c, Some(DuplicateTable))
      else (c.(tables := c.tables[table := TableEntry(NewColumns(items, ItemKeys(items)), ItemKeys(items))]), None)
    case AddColumn(table, item) =>
      if table !in c.tables || !item.ColumnItem? || item.dataType !in c.types then (c, Some(Undefined))
      else if item.name in ColumnNames(c.tables[table].columns) then (c, Some(DuplicateColumn))
      else
        var old_ := c.tables[table];
        (c.(tables := c.tables[table :=
              old_.(columns := old_.columns + [ColumnEntry(item.name, item.dataType, !item.notNull)])]), None)
    case Grant(_, _, _) => (c.(grants := c.grants + {s}), None)
    case _ =>
      var (entry, code) := EntryAfter(Find(c.publications, s.name), c.tables.Keys, s);
      (c.(publications := Put(c.publications, s.name, entry)), code)
  }

  // ---------------------------------------------------------------------------------------------------
  // Calls that can fail
  // ---------------------------------------------------------------------------------------------------

  /**
   What becomes of a call to a remote party: it is carried out and answered, it never arrives, or it is
   carried out but the answer is lost.
   */
  datatype Fate = Delivered | Lost | Unanswered

  /** The fate of the next call; a script that has run out delivers everything. */
  function Next(fates: seq<Fate>): Fate {
    if fates == [] then Delivered else fates[0]
  }

  function Later(fates: seq<Fate>): seq<Fate> {
    if fates == [] then [] else fates[1..]
  }

  predicate AllDelivered(fates: seq<Fate>) {
    forall i :: 0 <= i < |fates| ==> fates[i] == Delivered
  }

  /** The fate of the call after the next `n`. */
  function FateAt(fates: seq<Fate>, n: nat): Fate {
    if n < |fates| then fates[n] else Delivered
  }

  /** The next `n` calls are all carried out and answered. */
  predicate DeliveredUpTo(fates: seq<Fate>, n: nat) {
    forall i :: 0 <= i < n ==> FateAt(fates, i) == Delivered
  }

  lemma DeliveredSnoc(fates: seq<Fate>, n: nat)
    ensures DeliveredUpTo(fates, n + 1) <==> DeliveredUpTo(fates, n) && FateAt(fates, n) == Delivered
  {
  }

  lemma LaterFates(fates: seq<Fate>, n: nat)
    ensures Next(fates) == FateAt(fates, 0)
    ensures FateAt(Later(fates), n) == FateAt(fates, n + 1)
  {
  }

  lemma DeliveredCons(fates: seq<Fate>, n: nat)
    ensures DeliveredUpTo(fates, n + 1) <==> Next(fates) == Delivered && DeliveredUpTo(Later(fates), n)
  {
    LaterFates(fates, 0);
    forall i: nat
      ensures FateAt(Later(fates), i) == FateAt(fates, i + 1)
    {
      LaterFates(fates, i);
    }
    if Next(fates) == Delivered && DeliveredUpTo(Later(fates), n) {
      forall i | 0 <= i < n + 1
        ensures FateAt(fates, i) == Delivered
      {
        if i > 0 {
          assert FateAt(Later(fates), i - 1) == FateAt(fates, i - 1 + 1);
        }
      }
    }
  }

  /** The fates that are left after `n` calls. */
  function Skip(fates: seq<Fate>, n: nat): seq<Fate> {
    if n <= |fates| then fates[n..] else []
  }

  lemma SkipOne(fates: seq<Fate>, n: nat)
    ensures Skip(fates, n + 1) == Skip(Later(fates), n)
  {
  }

  lemma {:induction false} DeliveredSplit(fates: seq<Fate>, a: nat, b: nat)
    ensures DeliveredUpTo(fates, a + b) <==> DeliveredUpTo(fates, a) && DeliveredUpTo(Skip(fates, a), b)
  {
    if a > 0 {
      SkipOne(fates, a - 1);
      DeliveredCons(fates, a - 1);
      DeliveredCons(fates, a - 1 + b);
      DeliveredSplit(Later(fates), a - 1, b);
    }
  }

  /** What the caller of Exec learns. Only Refused carries a *pgconn.PgError. */
  datatype Reply = Done | Refused(code: Code) | Broken

  function Carried(c: Catalog, s: Option<Statement>): (Catalog, Option<Code>) {
    match s
    case None => (c, Some(SyntaxError))
    case Some(statement) => Apply(c, statement)
  }

  function Serve(c: Catalog, fate: Fate, s: Option<Statement>): (Catalog, Reply) {
    match fate
    case Lost => (c, Broken)
    case Unanswered => (Carried(c, s).0, Broken)
    case Delivered =>
      var (after, code) := Carried(c, s);
      (after, if code.None? then Done else Refused(code.value))
  }

  // ---------------------------------------------------------------------------------------------------
  // aiven_extras
  // ---------------------------------------------------------------------------------------------------

  /** A schema-qualified name, as the extension reads it out of a text parameter. */
  function ReadTable(text: string): Option<TableName> {
    match Lex(text)
    case None => None
    case Some(tokens) =>
      match ParseTable(tokens)
      case None => None
      case Some((table, rest)) => if rest == [] then Some(table) else None
  }

  /** All the texts, or None when one of them is not a table name. */
  function ReadTableTexts(texts: seq<string>): Option<seq<TableName>> {
    if texts == [] then Some([])
    else if ReadTable(texts[0]).None? || ReadTableTexts(texts[1..]).None? then None
    else Some([ReadTable(texts[0]).value] + ReadTableTexts(texts[1..]).value)
  }

  /**
   aiven_extras.pg_create_publication, taken to create the publication its parameters describe. What it
   does with an empty table list is not known here, so that is a parameter: the scope it then uses, or None
   if it refuses. A text parameter cannot contain NUL.
   */
  function AivenStatement(name: string, publish: string, tables: seq<string>,
                          onEmpty: Option<Scope>): Option<Statement> {
    if !NulFree(name) || !NulFree(publish) || ReadTableTexts(tables).None? then None
    else if tables == [] then
      match onEmpty
      case None => None
      case Some(scope) => Some(CreatePublication(name, scope, Some(publish)))
    else Some(CreatePublication(name, OnlyTables(ReadTableTexts(tables).value), Some(publish)))
  }

  // ---------------------------------------------------------------------------------------------------
  // A connection
  // ---------------------------------------------------------------------------------------------------

  class Session {
    /** What is committed. */
    var catalog: Catalog

    /** The open transaction's view, if there is one. */
    var work: Option<Catalog>

    var fates: seq<Fate>

    /** standard_conforming_strings is on and the encoding is UTF-8, as EscapeString demands. */
    const conforming: bool

    const aivenOnEmpty: Option<Scope>

    constructor (catalog: Catalog, fates: seq<Fate>, conforming: bool, aivenOnEmpty: Option<Scope>)
      ensures this.catalog == catalog && this.fates == fates && work == None
      ensures this.conforming == conforming && this.aivenOnEmpty == aivenOnEmpty
    {
      this.catalog, this.fates, this.work := catalog, fates, None;
      this.conforming, this.aivenOnEmpty := conforming, aivenOnEmpty;
    }

    method EscapeLiteral(s: string) returns (r: Option<string>)
      ensures r == if conforming then Some(EscapeString(s)) else None
    {
      r := if conforming then Some(EscapeString(s)) else None;
    }

    /** Exec outside a transaction: PostgreSQL reads the text and carries out the statement. */
    method Exec(sql: string) returns (r: Reply)
      modifies this`catalog, this`fates
      ensures (catalog, r) == Serve(old(catalog), Next(old(fates)), Read(sql))
      ensures fates == Later(old(fates))
    {
      var fate := Next(fates);
      fates := Later(fates);
      var (after, reply) := Serve(catalog, fate, Read(sql));
      catalog, r := after, reply;
    }

    method CallAiven(name: string, publish: string, tables: seq<string>) returns (r: Reply)
      modifies this`catalog, this`fates
      ensures (catalog, r) == Serve(old(catalog), Next(old(fates)), AivenStatement(name, publish, tables, aivenOnEmpty))
      ensures fates == Later(old(fates))
    {
      var fate := Next(fates);
      fates := Later(fates);
      var (after, reply) := Serve(catalog, fate, AivenStatement(name, publish, tables, aivenOnEmpty));
      catalog, r := after, reply;
    }

    /** The column names of one table, each at least once and in no particular order. */
    method QueryColumnNames(schema: string, name: string) returns (rows: Option<seq<string>>)
      modifies this`fates
      ensures rows.Some? <==> Next(old(fates)) == Delivered && NulFree(schema) && NulFree(name)
      ensures rows.Some? ==>
                forall n :: n in rows.value <==>
                  TableName(schema, name) in catalog.tables
                    && n in ColumnNames(catalog.tables[TableName(schema, name)].columns)
      ensures fates == Later(old(fates))
    {
      var table := TableName(schema, name);
      if Next(fates) == Delivered && NulFree(schema) && NulFree(name) {
        if table in catalog.tables {
          var columns := catalog.tables[table].columns;
          var found := seq(|columns|, i requires 0 <= i < |columns| => columns[i].name);
          assert forall i :: 0 <= i < |columns| ==> found[i] == columns[i].name && columns[i] in columns;
          rows := Some(found);
        } else {
          rows := Some([]);
        }
      } else {
        rows := None;
      }
      fates := Later(fates);
    }

    method BeginTx() returns (ok: bool)
      modifies this`work, this`fates
      ensures ok <==> Next(old(fates)) == Delivered
      ensures work == if ok then Some(catalog) else None
      ensures fates == Later(old(fates))
    {
      ok := Next(fates) == Delivered;
      work := if ok then Some(catalog) else None;
      fates := Later(fates);
    }

    /** Exec inside the transaction: any error aborts it, and the work done so far is gone. */
    method ExecTx(sql: string) returns (r: Reply)
      modifies this`work, this`fates
      ensures old(work).None? ==> r == Broken && work == None
      ensures old(work).Some? ==>
                r == Serve(old(work).value, Next(old(fates)), Read(sql)).1 &&
                work == if r == Done then Some(Serve(old(work).value, Next(old(fates)), Read(sql)).0) else None
      ensures fates == Later(old(fates))
    {
      var fate := Next(fates);
      fates := Later(fates);
      if work.None? {
        return Broken;
      }
      var (after, reply) := Serve(work.value, fate, Read(sql));
      r := reply;
      work := if r == Done then Some(after) else None;
    }

    /** The work becomes visible at once, unless the request never arrives or there is nothing to commit. */
    method Commit() returns (ok: bool)
      modifies this`catalog, this`work, this`fates
      ensures ok <==> old(work).Some? && Next(old(fates)) == Delivered
      ensures catalog == if old(work).Some? && Next(old(fates)) != Lost then old(work).value else old(catalog)
      ensures work == None && fates == Later(old(fates))
    {
      var fate := Next(fates);
      fates := Later(fates);
      ok := work.Some? && fate == Delivered;
      if work.Some? && fate != Lost {
        catalog := work.value;
      }
      work := None;
    }

    /** Whatever was not committed is forgotten, also when the request is lost with the connection. */
    method Rollback()
      modifies this`work
      ensures work == None
    {
      work := None;
    }
  }
}
