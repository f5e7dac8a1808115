/**
 controllers/postgresgrant_controller.go: the stream of GRANT statements, and what admission guarantees
 about its text. The catalog only records which statements the server accepted; nothing is said here about
 the privileges they confer.
 */
module GrantController {
  import opened Wrappers
  import opened SqlText
  import opened Specs
  import opened SqlGrammar
  import opened GrantSql
  import opened GrantAdmission
  import opened Postgres

  const ORDER: seq<ObjectType> := [DatabaseType, FunctionType, SchemaType, SequenceType, TableType]

  /** The privileges named for a type, or ALL. */
  function Effective(g: GrantSpec, o: ObjectType): seq<string> {
    if PrivilegesForType(g, o) == [] then ["ALL"] else PrivilegesForType(g, o)
  }

  function TextsFor(g: GrantSpec, o: ObjectType, identifiers: seq<seq<string>>): seq<string> {
    seq(|identifiers|, i requires 0 <= i < |identifiers| => GrantText(Effective(g, o), identifiers[i], g.role))
  }

  function Stream(g: GrantSpec, types: seq<ObjectType>): seq<string> {
    if types == [] then [] else TextsFor(g, types[0], Identifiers(g, types[0])) + Stream(g, types[1..])
  }

  /** Statements up to the first that fails: the catalog, what was issued, and whether all went well. */
  function Issue(c: Catalog, fates: seq<Fate>, texts: seq<string>): (Catalog, seq<Fate>, seq<string>, bool)
    decreases |texts|
  {
    if texts == [] then (c, fates, [], true)
    else
      var (c1, reply) := Serve(c, Next(fates), Read(texts[0]));
      if reply != Done then (c1, Later(fates), [texts[0]], false)
      else
        var (c2, f2, issued, ok) := Issue(c1, Later(fates), texts[1..]);
        (c2, f2, [texts[0]] + issued, ok)
  }

  /** What is issued so far, followed by what issuing the rest would give. */
  function Resumed(issued: seq<string>, r: (Catalog, seq<Fate>, seq<string>, bool))
    : (Catalog, seq<Fate>, seq<string>, bool)
  {
    (r.0, r.1, issued + r.2, r.3)
  }

  lemma ResumedStep(issued: seq<string>, c: Catalog, fates: seq<Fate>, texts: seq<string>)
    requires texts != []
    ensures var (c1, reply) := Serve(c, Next(fates), Read(texts[0]));
            Resumed(issued, Issue(c, fates, texts)) ==
            if reply != Done then (c1, Later(fates), issued + [texts[0]], false)
            else Resumed(issued + [texts[0]], Issue(c1, Later(fates), texts[1..]))
  {
    var (c1, reply) := Serve(c, Next(fates), Read(texts[0]));
    if reply == Done {
      var more := Issue(c1, Later(fates), texts[1..]).2;
      assert issued + ([texts[0]] + more) == issued + [texts[0]] + more;
    }
  }

  class GrantReconciler {
    const conn: Session

    constructor (conn: Session)
      ensures this.conn == conn
    {
      this.conn := conn;
    }

    /** The statements for one type, with those of later types still to come. */
    method ReconcileObjectGrants(g: GrantSpec, o: ObjectType, ghost before: seq<string>, ghost after: seq<string>)
      returns (requeue: bool, ghost issued: seq<string>)
      modifies conn`catalog, conn`fates
      ensures var total :=
              Resumed(before, Issue(old(conn.catalog), old(conn.fates), TextsFor(g, o, Identifiers(g, o)) + after));
              if requeue then (conn.catalog, conn.fates, issued, false) == total
              else Resumed(issued, Issue(conn.catalog, conn.fates, after)) == total
    {
      var privileges := PrivilegesForType(g, o);
      if |privileges| == 0 {
        privileges := ["ALL"];
      }
      var identifiers := IdentifiersForType(g, o);
      ghost var texts := TextsFor(g, o, identifiers) + after;
      ghost var total := Resumed(before, Issue(conn.catalog, conn.fates, texts));
      issued := before;
      for i := 0 to |identifiers|
        invariant Resumed(issued, Issue(conn.catalog, conn.fates, texts[i..])) == total
      {
        ResumedStep(issued, conn.catalog, conn.fates, texts[i..]);
        var sql := "GRANT " + Join(privileges, ", ") + " ON " + Sanitize(identifiers[i]) + " TO " + Sanitize([g.role]);
        assert texts[i..][0] == sql && texts[i..][1..] == texts[i + 1..];
        var reply := conn.Exec(sql);
        issued := issued + [sql];
        if reply != Done {
          return true, issued;
        }
      }
      assert texts[|identifiers|..] == after;
      return false, issued;
    }

    /** Issues the fixed stream of statements up to the first failure, which requeues. */
    method Reconcile(g: GrantSpec) returns (requeue: bool, ghost issued: seq<string>)
      modifies conn`catalog, conn`fates
      ensures (conn.catalog, conn.fates, issued, !requeue)
              == Issue(old(conn.catalog), old(conn.fates), Stream(g, ORDER))
      ensures Admitted(g) && PlainGrant(g) && !requeue ==>
                conn.catalog == old(conn.catalog).(grants := old(conn.catalog).grants + Granted(g))
    {
      if Admitted(g) && PlainGrant(g) {
        GrantsAsAsked(conn.catalog, conn.fates, g);
      }
      ghost var total := Issue(conn.catalog, conn.fates, Stream(g, ORDER));
      issued := [];
      assert total.2 == [] + total.2;
      for i := 0 to |ORDER|
        invariant Resumed(issued, Issue(conn.catalog, conn.fates, Stream(g, ORDER[i..]))) == total
      {
        assert ORDER[i..][0] == ORDER[i] && ORDER[i..][1..] == ORDER[i + 1..];
        requeue, issued := ReconcileObjectGrants(g, ORDER[i], issued, Stream(g, ORDER[i + 1..]));
        if requeue {
          return;
        }
      }
      assert ORDER[|ORDER|..] == [];
      assert issued + [] == issued;
      requeue := false;
    }
  }

  // ---------------------------------------------------------------------------------------------------
  // Admission and emission together
  // ---------------------------------------------------------------------------------------------------

  lemma ValidatedIsEmitted(g: GrantSpec, o: ObjectType)
    requires o in GRANTABLE
    ensures o in ValidationInputs(g) && ValidationInputs(g)[o] == PrivilegesForType(g, o)
  {
  }

  predicate PlainIdent(ident: seq<string>) {
    forall i :: 0 <= i < |ident| ==> NulFree(ident[i])
  }

  lemma CleanPlainIdent(ident: seq<string>)
    requires PlainIdent(ident)
    ensures CleanNames(ident) == ident
  {
    forall i | 0 <= i < |ident|
      ensures Strip(ident[i]) == ident[i]
    {
      StripNulFree(ident[i]);
    }
  }

  /**
   Every statement emitted for an admitted grant reads back as exactly its privileges, or ALL when none are
   named, on its identifier, to its role.
   */
  lemma AdmissionMakesGrantsParse(g: GrantSpec, o: ObjectType, i: nat)
    requires Admitted(g) && o in GRANTABLE && i < |Identifiers(g, o)|
    requires NulFree(g.role) && PlainIdent(Identifiers(g, o)[i])
    ensures i < |TextsFor(g, o, Identifiers(g, o))|
    ensures Read(TextsFor(g, o, Identifiers(g, o))[i]) == Some(Grant(Effective(g, o), Identifiers(g, o)[i], g.role))
    ensures (PrivilegesForType(g, o) == [] && Effective(g, o) == ["ALL"]) || Effective(g, o) == PrivilegesForType(g, o)
    ensures forall p :: p in Effective(g, o) ==> p in ValidPrivileges(o)
  {
    var on := Identifiers(g, o)[i];
    ValidPrivilegesAreWords(o);
    assert forall j :: 0 <= j < |Effective(g, o)| ==> Effective(g, o)[j] in ValidPrivileges(o);
    ReadGrant(Effective(g, o), on, g.role);
    CleanPlainIdent(on);
    StripNulFree(g.role);
  }

  // ---------------------------------------------------------------------------------------------------
  // The stream under failure
  // ---------------------------------------------------------------------------------------------------

  /** The statements a list of texts reads as. */
  function Meanings(texts: seq<string>): set<Statement> {
    set t | t in texts && Read(t).Some? :: Read(t).value
  }

  predicate AllGrants(texts: seq<string>) {
    forall t :: t in texts ==> Read(t).Some? && Read(t).value.Grant?
  }

  function WithGrants(c: Catalog, added: set<Statement>): Catalog {
    c.(grants := c.grants + added)
  }

  /** What was issued is a prefix of the stream; all of it when nothing failed. */
  lemma {:induction false} IssuesAPrefix(c: Catalog, fates: seq<Fate>, texts: seq<string>)
    ensures var (_, _, issued, ok) := Issue(c, fates, texts);
            issued <= texts && (ok ==> issued == texts)
    decreases |texts|
  {
    if texts != [] {
      IssuesAPrefix(Serve(c, Next(fates), Read(texts[0])).0, Later(fates), texts[1..]);
      assert texts == [texts[0]] + texts[1..];
    }
  }

  lemma GrantServed(c: Catalog, fate: Fate, s: Statement)
    requires s.Grant?
    ensures Serve(c, fate, Some(s))
            == (WithGrants(c, if fate == Lost then {} else {s}), if fate == Delivered then Done else Broken)
  {
    assert c.grants + {} == c.grants;
  }

  lemma GrantsAdd(c: Catalog, a: set<Statement>, b: set<Statement>)
    ensures WithGrants(WithGrants(c, a), b) == WithGrants(c, a + b)
  {
    assert c.grants + a + b == c.grants + (a + b);
  }

  lemma MeaningsCons(texts: seq<string>)
    requires texts != [] && AllGrants(texts)
    ensures Read(texts[0]).Some? && Read(texts[0]).value.Grant? && AllGrants(texts[1..])
    ensures Meanings(texts) == {Read(texts[0]).value} + Meanings(texts[1..])
  {
    assert texts[0] in texts;
    assert forall t :: t in texts <==> t == texts[0] || t in texts[1..];
  }

  /**
   An attempt records some of the statements and nothing else. It succeeds if and only if every one of them
   was carried out and answered, and then it has recorded them all.
   */
  lemma {:induction false} IssueRecords(c: Catalog, fates: seq<Fate>, texts: seq<string>)
    requires AllGrants(texts)
    ensures exists added :: added <= Meanings(texts) && Issue(c, fates, texts).0 == WithGrants(c, added)
    ensures Issue(c, fates, texts).3 ==> Issue(c, fates, texts).0 == WithGrants(c, Meanings(texts))
    ensures Issue(c, fates, texts).3 <==> DeliveredUpTo(fates, |texts|)
    decreases |texts|
  {
    if texts == [] {
      GrantsAdd(c, {}, {});
      assert c.grants + {} == c.grants && Meanings(texts) == {};
      assert WithGrants(c, {}) == c;
    } else {
      MeaningsCons(texts);
      DeliveredCons(fates, |texts| - 1);
      var s := Read(texts[0]).value;
      GrantServed(c, Next(fates), s);
      if Next(fates) == Delivered {
        var c1 := WithGrants(c, {s});
        IssueRecords(c1, Later(fates), texts[1..]);
        var added :| added <= Meanings(texts[1..]) && Issue(c1, Later(fates), texts[1..]).0 == WithGrants(c1, added);
        GrantsAdd(c, {s}, added);
        GrantsAdd(c, {s}, Meanings(texts[1..]));
      }
    }
  }

  /** One reconcile after the other. */
  function Attempts(c: Catalog, scripts: seq<seq<Fate>>, texts: seq<string>): Catalog {
    if scripts == [] then c
    else Issue(Attempts(c, scripts[..|scripts| - 1], texts), scripts[|scripts| - 1], texts).0
  }

  lemma {:induction false} AttemptsRecord(c: Catalog, scripts: seq<seq<Fate>>, texts: seq<string>)
    requires AllGrants(texts)
    ensures exists added :: added <= Meanings(texts) && Attempts(c, scripts, texts) == WithGrants(c, added)
  {
    if scripts == [] {
      assert c.grants + {} == c.grants;
      assert WithGrants(c, {}) == c;
    } else {
      var before := Attempts(c, scripts[..|scripts| - 1], texts);
      AttemptsRecord(c, scripts[..|scripts| - 1], texts);
      var a :| a <= Meanings(texts) && before == WithGrants(c, a);
      IssueRecords(before, scripts[|scripts| - 1], texts);
      var b :| b <= Meanings(texts) && Issue(before, scripts[|scripts| - 1], texts).0 == WithGrants(before, b);
      GrantsAdd(c, a, b);
    }
  }

  predicate PlainNames(names: seq<TableName>) {
    forall i :: 0 <= i < |names| ==> NulFree(names[i].schema) && NulFree(names[i].name)
  }

  /** No NUL in any name. */
  predicate PlainGrant(g: GrantSpec) {
    && NulFree(g.role) && PlainNames(g.tables) && PlainNames(g.sequences) && PlainNames(g.functions)
    && (forall i :: 0 <= i < |g.schemas| ==> NulFree(g.schemas[i]))
    && (forall i :: 0 <= i < |g.databases| ==> NulFree(g.databases[i]))
  }

  lemma PlainIdentifiers(g: GrantSpec, o: ObjectType, i: nat)
    requires PlainGrant(g) && i < |Identifiers(g, o)|
    ensures PlainIdent(Identifiers(g, o)[i])
  {
  }

  lemma {:induction false} StreamReads(g: GrantSpec, types: seq<ObjectType>)
    requires Admitted(g) && PlainGrant(g) && forall o :: o in types ==> o in GRANTABLE
    ensures AllGrants(Stream(g, types))
  {
    if types != [] {
      StreamReads(g, types[1..]);
      var texts := TextsFor(g, types[0], Identifiers(g, types[0]));
      forall i | 0 <= i < |texts|
        ensures Read(texts[i]).Some? && Read(texts[i]).value.Grant?
      {
        PlainIdentifiers(g, types[0], i);
        AdmissionMakesGrantsParse(g, types[0], i);
      }
    }
  }

  // ---------------------------------------------------------------------------------------------------
  // What a grant asks for, field by field
  // ---------------------------------------------------------------------------------------------------

  function OrAll(privileges: seq<string>): seq<string> {
    if privileges == [] then ["ALL"] else privileges
  }

  function OnNamed(privileges: seq<string>, names: seq<TableName>, role: string): set<Statement> {
    set name | name in names :: Grant(OrAll(privileges), [name.schema, name.name], role)
  }

  function OnPlain(privileges: seq<string>, names: seq<string>, role: string): set<Statement> {
    set name | name in names :: Grant(OrAll(privileges), [name], role)
  }

  /** Every table with the table privileges, every sequence with those for sequences, and so on. */
  function Granted(g: GrantSpec): set<Statement> {
    OnNamed(g.tablePrivileges, g.tables, g.role) + OnNamed(g.sequencePrivileges, g.sequences, g.role)
    + OnNamed(g.functionPrivileges, g.functions, g.role) + OnPlain(g.schemaPrivileges, g.schemas, g.role)
    + OnPlain(g.databasePrivileges, g.databases, g.role)
  }

  /** The same for one type. */
  function GrantedFor(g: GrantSpec, o: ObjectType): set<Statement> {
    match o
    case TableType => OnNamed(g.tablePrivileges, g.tables, g.role)
    case SequenceType => OnNamed(g.sequencePrivileges, g.sequences, g.role)
    case FunctionType => OnNamed(g.functionPrivileges, g.functions, g.role)
    case SchemaType => OnPlain(g.schemaPrivileges, g.schemas, g.role)
    case DatabaseType => OnPlain(g.databasePrivileges, g.databases, g.role)
    case OtherType(_) => {}
  }

  lemma MeaningsConcat(a: seq<string>, b: seq<string>)
    ensures Meanings(a + b) == Meanings(a) + Meanings(b)
  {
    assert forall t :: t in a + b <==> t in a || t in b;
  }

  /** The statements for one type are those for its identifiers. */
  lemma TextsMean(g: GrantSpec, o: ObjectType)
    requires Admitted(g) && PlainGrant(g) && o in GRANTABLE
    ensures Meanings(TextsFor(g, o, Identifiers(g, o))) == GrantedFor(g, o)
  {
    var on := Identifiers(g, o);
    var texts := TextsFor(g, o, on);
    forall i | 0 <= i < |texts|
      ensures Read(texts[i]) == Some(Grant(Effective(g, o), on[i], g.role))
      ensures Read(texts[i]).value in GrantedFor(g, o)
    {
      PlainIdentifiers(g, o, i);
      AdmissionMakesGrantsParse(g, o, i);
    }
    forall s | s in GrantedFor(g, o)
      ensures s in Meanings(texts)
    {
      var i := IdentifierOf(g, o, s);
      assert texts[i] in texts;
    }
  }

  lemma IdentifierOf(g: GrantSpec, o: ObjectType, s: Statement) returns (i: nat)
    requires s in GrantedFor(g, o)
    ensures i < |Identifiers(g, o)| && s == Grant(Effective(g, o), Identifiers(g, o)[i], g.role)
  {
    match o
    case TableType => i :| 0 <= i < |g.tables| && s.on == [g.tables[i].schema, g.tables[i].name];
    case SequenceType => i :| 0 <= i < |g.sequences| && s.on == [g.sequences[i].schema, g.sequences[i].name];
    case FunctionType => i :| 0 <= i < |g.functions| && s.on == [g.functions[i].schema, g.functions[i].name];
    case SchemaType => i :| 0 <= i < |g.schemas| && s.on == [g.schemas[i]];
    case DatabaseType => i :| 0 <= i < |g.databases| && s.on == [g.databases[i]];
  }

  /** How many statements there are for these types. */
  function Total(g: GrantSpec, types: seq<ObjectType>): nat {
    if types == [] then 0 else |Identifiers(g, types[0])| + Total(g, types[1..])
  }

  lemma {:induction false} StreamFor(g: GrantSpec, types: seq<ObjectType>)
    requires Admitted(g) && PlainGrant(g) && forall o :: o in types ==> o in GRANTABLE
    ensures forall s :: s in Meanings(Stream(g, types)) <==> exists o :: o in types && s in GrantedFor(g, o)
    ensures |Stream(g, types)| == Total(g, types)
  {
    if types != [] {
      var first := TextsFor(g, types[0], Identifiers(g, types[0]));
      StreamFor(g, types[1..]);
      TextsMean(g, types[0]);
      MeaningsConcat(first, Stream(g, types[1..]));
      assert forall o :: o in types <==> o == types[0] || o in types[1..];
    }
  }

  /** The five types, each once. */
  lemma OrderIsComplete(g: GrantSpec)
    ensures forall o :: o in ORDER <==> o in GRANTABLE
    ensures Total(g, ORDER) == |g.tables| + |g.sequences| + |g.functions| + |g.schemas| + |g.databases|
  {
    assert ORDER[1..][1..] == ORDER[2..] && ORDER[2..][1..] == ORDER[3..] && ORDER[3..][1..] == ORDER[4..];
    assert ORDER[4..] == [TableType];
    assert Total(g, ORDER[4..]) == |g.tables|;
    assert Total(g, ORDER[3..]) == |g.sequences| + Total(g, ORDER[4..]);
    assert Total(g, ORDER[2..]) == |g.schemas| + Total(g, ORDER[3..]);
    assert Total(g, ORDER[1..]) == |g.functions| + Total(g, ORDER[2..]);
  }

  lemma GrantedByType(g: GrantSpec, s: Statement)
    ensures s in Granted(g) <==> exists o :: o in GRANTABLE && s in GrantedFor(g, o)
  {
    if s in Granted(g) {
      assert || s in GrantedFor(g, TableType) || s in GrantedFor(g, SequenceType) || s in GrantedFor(g, FunctionType)
             || s in GrantedFor(g, SchemaType) || s in GrantedFor(g, DatabaseType);
    }
  }

  /** The stream says what the grant asks for: nothing more, and nothing is left out. */
  lemma StreamMeans(g: GrantSpec)
    requires Admitted(g) && PlainGrant(g)
    ensures AllGrants(Stream(g, ORDER)) && Meanings(Stream(g, ORDER)) == Granted(g)
    ensures |Stream(g, ORDER)| == |g.tables| + |g.sequences| + |g.functions| + |g.schemas| + |g.databases|
  {
    OrderIsComplete(g);
    StreamReads(g, ORDER);
    StreamFor(g, ORDER);
    forall s
      ensures s in Meanings(Stream(g, ORDER)) <==> s in Granted(g)
    {
      GrantedByType(g, s);
    }
  }

  lemma RetriesRecord(c: Catalog, scripts: seq<seq<Fate>>, last: seq<Fate>, texts: seq<string>)
    requires AllGrants(texts) && AllDelivered(last)
    ensures Attempts(c, scripts + [last], texts) == Issue(c, [], texts).0 == WithGrants(c, Meanings(texts))
  {
    var all := scripts + [last];
    AttemptsRecord(c, scripts, texts);
    var a :| a <= Meanings(texts) && Attempts(c, scripts, texts) == WithGrants(c, a);
    assert all[..|all| - 1] == scripts && all[|all| - 1] == last;
    IssueRecords(WithGrants(c, a), last, texts);
    IssueRecords(c, [], texts);
    GrantsAdd(c, a, Meanings(texts));
    assert a + Meanings(texts) == Meanings(texts);
  }

  /**
   After any number of attempts that failed in whatever way, a clean attempt leaves the server having
   accepted exactly what a single clean attempt would have, and that is what the grant asks for.
   */
  lemma RetriesConverge(c: Catalog, scripts: seq<seq<Fate>>, last: seq<Fate>, g: GrantSpec)
    requires Admitted(g) && PlainGrant(g) && AllDelivered(last)
    ensures var texts := Stream(g, ORDER);
            Attempts(c, scripts + [last], texts) == Issue(c, [], texts).0 == WithGrants(c, Granted(g))
  {
    StreamMeans(g);
    RetriesRecord(c, scripts, last, Stream(g, ORDER));
  }

  /**
   One reconcile of an admitted grant, whatever fails: it records some of what the grant asks for and nothing
   else. It succeeds if and only if every statement was carried out and answered, and then it has recorded
   exactly what the grant asks for.
   */
  lemma GrantsAsAsked(c: Catalog, fates: seq<Fate>, g: GrantSpec)
    requires Admitted(g) && PlainGrant(g)
    ensures var (after, _, _, ok) := Issue(c, fates, Stream(g, ORDER));
            && (exists added :: added <= Granted(g) && after == WithGrants(c, added))
            && (ok <==> DeliveredUpTo(fates, |g.tables| + |g.sequences| + |g.functions| + |g.schemas| + |g.databases|))
            && (ok ==> after == c.(grants := c.grants + Granted(g)))
  {
    StreamMeans(g);
    IssueRecords(c, fates, Stream(g, ORDER));
  }
}
