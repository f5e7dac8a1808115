/**
 controllers/publicationmanager: creating, altering and dropping one publication, with the standard
 statements or through aiven_extras, and what the create-else-alter sequence of the publication controller
 makes of the catalog.
 */
module PublicationManager {
  import opened Wrappers
  import opened SqlText
  import opened Specs
  import opened SqlGrammar
  import opened PublicationSql
  import opened Postgres

  /** The (created, err) pair of CreatePublication. */
  datatype Creation = Created | Existed | CreationFailed

  function Judge(reply: Reply): Creation {
    if reply == Done then Created else if reply == Refused(DuplicateObject) then Existed else CreationFailed
  }

  function SetTablesOf(p: Publication): Option<Statement> {
    if p.tables == [] then None else Some(SetTables(Strip(p.name), CleanTables(p.tables)))
  }

  function SetPublishOf(p: Publication): Statement {
    SetPublish(Strip(p.name), JoinedOperations(p))
  }

  lemma ReadSetTablesOf(p: Publication)
    ensures Read("ALTER PUBLICATION " + Sanitize([p.name]) + " SET TABLE " + Join(TableTexts(p.tables), ", "))
            == SetTablesOf(p)
  {
    if p.tables == [] {
      ReadSetNoTables(p.name);
    } else {
      ReadSetTables(p.name, p.tables);
    }
    assert SetTablesText(p.name, p.tables)
        == "ALTER PUBLICATION " + Sanitize([p.name]) + " SET TABLE " + Join(TableTexts(p.tables), ", ");
  }

  lemma Inlined(a: string, b: string, c: string, d: string, e: string, f: string)
    ensures a + b + c + (d + e + f) == a + b + (c + d) + e + f
  {
  }

  lemma ReadSetPublishOf(p: Publication)
    ensures Read("ALTER PUBLICATION " + Sanitize([p.name]) + " SET (publish = '" + EscapeString(JoinedOperations(p))
                 + "')")
         == Some(SetPublishOf(p))
  {
    ReadSetPublish(p.name, JoinedOperations(p));
    SetPhrase();
    Inlined("ALTER PUBLICATION ", Sanitize([p.name]), " SET ", "(publish = '", EscapeString(JoinedOperations(p)), "')");
  }

  /** The two ALTER statements, the second only if the first succeeded; also whether both did. */
  function AlterRun(c: Catalog, fates: seq<Fate>, p: Publication, conforming: bool): (Catalog, seq<Fate>, bool) {
    var (c1, r1) := Serve(c, Next(fates), SetTablesOf(p));
    if r1 != Done || !conforming then (c1, Later(fates), false)
    else
      var (c2, r2) := Serve(c1, Next(Later(fates)), Some(SetPublishOf(p)));
      (c2, Later(Later(fates)), r2 == Done)
  }

  class StdManager {
    const conn: Session

    constructor (conn: Session)
      ensures this.conn == conn
    {
      this.conn := conn;
    }

    static method SanitizeTables(tables: seq<TableName>) returns (identifiers: seq<string>)
      ensures identifiers == TableTexts(tables)
    {
      identifiers := [];
      for i := 0 to |tables|
        invariant identifiers == TableTexts(tables[..i])
      {
        assert tables[..i + 1] == tables[..i] + [tables[i]];
        identifiers := identifiers + [Sanitize(tables[i].Ident())];
      }
      assert tables[..|tables|] == tables;
    }

    method BuildCreatePublicationQuery(p: Publication) returns (query: Option<string>)
      ensures query == if p.operations != [] && !conn.conforming then None else Some(CreatePublicationText(p))
    {
      var forTablePart := "FOR ALL TABLES";
      if |p.tables| != 0 {
        var identifiers := SanitizeTables(p.tables);
        forTablePart := "FOR TABLE " + Join(identifiers, ", ");
      }
      var withPart := "";
      if |p.operations| > 0 {
        var escaped := conn.EscapeLiteral(Join(p.operations, ", "));
        if escaped.None? {
          return None;
        }
        withPart := "WITH (publish = '" + escaped.value + "')";
        assert withPart == WithText(p.operations);
      }
      return Some(Join(["CREATE PUBLICATION", Sanitize([p.name]), forTablePart, withPart], " "));
    }

    method CreatePublication(p: Publication) returns (r: Creation)
      modifies conn`catalog, conn`fates
      ensures p.operations != [] && !conn.conforming ==>
                r == CreationFailed && conn.catalog == old(conn.catalog) && conn.fates == old(conn.fates)
      ensures !(p.operations != [] && !conn.conforming) ==>
                var (after, reply) := Serve(old(conn.catalog), Next(old(conn.fates)), Some(CreateOf(p)));
                r == Judge(reply) && conn.catalog == after && conn.fates == Later(old(conn.fates))
    {
      var query := BuildCreatePublicationQuery(p);
      if query.None? {
        return CreationFailed;
      }
      ReadCreatePublication(p);
      var reply := conn.Exec(query.value);
      var publicationCreated := true;
      if reply != Done {
        if reply.Refused? && reply.code == DuplicateObject {
          publicationCreated := false;
        } else {
          return CreationFailed;
        }
      }
      return if publicationCreated then Created else Existed;
    }

    method AlterExistingPublication(p: Publication) returns (ok: bool)
      modifies conn`catalog, conn`fates
      ensures (conn.catalog, conn.fates, ok) == AlterRun(old(conn.catalog), old(conn.fates), p, conn.conforming)
    {
      var identifiers := SanitizeTables(p.tables);
      var setTableQuery := "ALTER PUBLICATION " + Sanitize([p.name]) + " SET TABLE " + Join(identifiers, ", ");
      ReadSetTablesOf(p);
      var reply := conn.Exec(setTableQuery);
      if reply != Done {
        return false;
      }
      var joinedOperations := DEFAULT_OPERATIONS;
      if |p.operations| > 0 {
        joinedOperations := Join(p.operations, ", ");
      }
      var sanitized := conn.EscapeLiteral(joinedOperations);
      if sanitized.None? {
        return false;
      }
      var setParamQuery := "ALTER PUBLICATION " + Sanitize([p.name]) + " SET (publish = '" + sanitized.value + "')";
      ReadSetPublishOf(p);
      reply := conn.Exec(setParamQuery);
      return reply == Done;
    }

    method DropPublication(name: string) returns (ok: bool)
      modifies conn`catalog, conn`fates
      ensures var (after, reply) :=
              Serve(old(conn.catalog), Next(old(conn.fates)), Some(Statement.DropPublication(Strip(name))));
              conn.catalog == after && ok == (reply == Done)
      ensures conn.fates == Later(old(conn.fates))
    {
      ReadDropPublication(name);
      var reply := conn.Exec("DROP PUBLICATION " + Sanitize([name]));
      return reply == Done;
    }
  }

  /** What the call to aiven_extras asks of the database. */
  function AivenCreateOf(p: Publication, onEmpty: Option<Scope>): Option<Statement> {
    AivenStatement(p.name, JoinedOperations(p), TableTexts(p.tables), onEmpty)
  }

  class AivenManager {
    const std: StdManager

    constructor (std: StdManager)
      ensures this.std == std
    {
      this.std := std;
    }

    method CreatePublication(p: Publication) returns (r: Creation)
      modifies std.conn`catalog, std.conn`fates
      ensures var (after, reply) :=
              Serve(old(std.conn.catalog), Next(old(std.conn.fates)), AivenCreateOf(p, std.conn.aivenOnEmpty));
              r == Judge(reply) && std.conn.catalog == after
      ensures std.conn.fates == Later(old(std.conn.fates))
    {
      var identifiers := StdManager.SanitizeTables(p.tables);
      var operations := DEFAULT_OPERATIONS;
      if |p.operations| > 0 {
        operations := Join(p.operations, ", ");
      }
      var reply := std.conn.CallAiven(p.name, operations, identifiers);
      var publicationCreated := true;
      if reply != Done {
        if reply.Refused? && reply.code == DuplicateObject {
          publicationCreated := false;
        } else {
          return CreationFailed;
        }
      }
      return if publicationCreated then Created else Existed;
    }
  }

  /** The Manager interface: altering and dropping are the standard ones in both variants. */
  datatype Manager = Standard(std: StdManager) | Aiven(aiven: AivenManager) {
    function Std(): StdManager {
      if Standard? then std else aiven.std
    }

    function Conn(): Session {
      Std().conn
    }

    method Create(p: Publication) returns (r: Creation)
      modifies Conn()`catalog, Conn()`fates
      ensures CreateRun(old(Conn().catalog), old(Conn().fates), p, Aiven?, Conn().conforming, Conn().aivenOnEmpty)
           == (Conn().catalog, Conn().fates, r)
    {
      match this
      case Standard(m) => r := m.CreatePublication(p);
      case Aiven(m) => r := m.CreatePublication(p);
    }
  }

  function CreateRun(c: Catalog, fates: seq<Fate>, p: Publication, aiven: bool, conforming: bool,
                     onEmpty: Option<Scope>)
    : (Catalog, seq<Fate>, Creation)
  {
    if !aiven && p.operations != [] && !conforming then (c, fates, CreationFailed)
    else
      var (after, reply) := Serve(c, Next(fates), if aiven then AivenCreateOf(p, onEmpty) else Some(CreateOf(p)));
      (after, Later(fates), Judge(reply))
  }

  /** The publication controller's reconcile: create, and alter what already exists. */
  method Reconcile(manager: Manager, p: Publication) returns (ok: bool)
    modifies manager.Conn()`catalog, manager.Conn()`fates
    ensures (manager.Conn().catalog, manager.Conn().fates, ok)
         == ReconcileRun(old(manager.Conn().catalog), old(manager.Conn().fates), p, manager.Aiven?,
                         manager.Conn().conforming, manager.Conn().aivenOnEmpty)
  {
    var creation := manager.Create(p);
    if creation == CreationFailed {
      return false;
    }
    if creation != Created {
      ok := manager.Std().AlterExistingPublication(p);
      return;
    }
    return true;
  }

  function ReconcileRun(c: Catalog, fates: seq<Fate>, p: Publication, aiven: bool, conforming: bool,
                        onEmpty: Option<Scope>)
    : (Catalog, seq<Fate>, bool)
  {
    var (c1, f1, creation) := CreateRun(c, fates, p, aiven, conforming, onEmpty);
    match creation
    case CreationFailed => (c1, f1, false)
    case Created => (c1, f1, true)
    case Existed => AlterRun(c1, f1, p, conforming)
  }
}
