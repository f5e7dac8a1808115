/**
 One CREATE, two ALTERs, or a call to aiven_extras: three ways to the same publication. The lemmas are
 about ReconcileRun, which the methods of PublicationManager are proved to carry out.
 */
module PublicationRefinement {
  import opened Wrappers
  import opened SqlText
  import opened Specs
  import opened SqlGrammar
  import opened PublicationSql
  import opened Postgres
  import opened PublicationManager

  function NameOf(p: Publication): string {
    Strip(p.name)
  }

  function PublishOf(p: Publication): Option<string> {
    if p.operations == [] then None else Some(Join(p.operations, ", "))
  }

  /** The server can make this publication: it knows the operations and the tables. */
  predicate Acceptable(p: Publication, known: set<TableName>) {
    PublishSet(PublishOf(p)).Some? && TableSet(CleanTables(p.tables)) <= known
  }

  /** The catalog entry the resource asks for: its tables, or all of them; its operations, or all four. */
  function Wanted(p: Publication): Entry
    requires PublishSet(PublishOf(p)).Some?
  {
    Entry(if p.tables == [] then Everything
          else Listed(TableSet(CleanTables(p.tables))), PublishSet(PublishOf(p)).value)
  }

  /** New tables, old operations: what is left when the second ALTER does not happen. */
  function Retabled(e: Entry, p: Publication): Entry {
    e.(coverage := Listed(TableSet(CleanTables(p.tables))))
  }

  function WithEntry(c: Catalog, name: string, e: Option<Entry>): Catalog {
    c.(publications := Put(c.publications, name, e))
  }

  /** Valid operation names are understood, as the set of themselves. */
  lemma ValidOperationsAreUnderstood(p: Publication)
    requires ValidOperations(p.operations)
    ensures PublishSet(PublishOf(p)) == Some(if p.operations == [] then OPERATIONS else set op | op in p.operations)
  {
    if p.operations != [] {
      ReadPublishUndoesJoin(p.operations);
    }
  }

  /** Writing the default out, as ALTER does, means the same as leaving it out, as CREATE does. */
  lemma OmittedMeansAll(p: Publication)
    ensures PublishSet(Some(JoinedOperations(p))) == PublishSet(PublishOf(p))
  {
    if p.operations == [] {
      DefaultIsEverything();
    }
  }

  // ---------------------------------------------------------------------------------------------------
  // The effect of each step on the one entry it touches
  // ---------------------------------------------------------------------------------------------------

  lemma CreateEffect(c: Catalog, p: Publication)
    ensures var e := Find(c.publications, NameOf(p));
            var (after, code) := Apply(c, CreateOf(p));
            (code == Some(DuplicateObject) <==> e.Some?) &&
            (code == None <==> e.None? && Acceptable(p, c.tables.Keys)) &&
            after == if code == None then WithEntry(c, NameOf(p), Some(Wanted(p))) else c
  {
    PutSame(c.publications, NameOf(p));
  }

  lemma PutSame<K, V>(m: map<K, V>, k: K)
    ensures Put(m, k, Find(m, k)) == m
  {
  }

  lemma SetTablesEffect(c: Catalog, p: Publication)
    ensures var e := Find(c.publications, NameOf(p));
            var (after, code) := Carried(c, SetTablesOf(p));
            (code == None <==>
              && e.Some? && !e.value.coverage.Everything?
              && p.tables != [] && TableSet(CleanTables(p.tables)) <= c.tables.Keys) &&
            after == if code == None then WithEntry(c, NameOf(p), Some(Retabled(e.value, p))) else c
  {
    PutSame(c.publications, NameOf(p));
  }

  lemma SetPublishEffect(c: Catalog, p: Publication)
    ensures var e := Find(c.publications, NameOf(p));
            var (after, code) := Apply(c, SetPublishOf(p));
            (code == None <==> e.Some? && PublishSet(PublishOf(p)).Some?) &&
            after == if code == None
              then WithEntry(c, NameOf(p), Some(e.value.(operations := PublishSet(PublishOf(p)).value))) else c
  {
    PutSame(c.publications, NameOf(p));
    OmittedMeansAll(p);
  }

  // ---------------------------------------------------------------------------------------------------
  // Alter refines create
  // ---------------------------------------------------------------------------------------------------

  /** The request to create it can be made: Aiven's text parameters take no NUL, a literal needs escaping. */
  predicate Sendable(p: Publication, aiven: bool, conforming: bool) {
    if aiven then NulFree(p.name) && NulFree(JoinedOperations(p)) else p.operations == [] || conforming
  }

  /** When a reconcile succeeds if nothing goes wrong on the way. */
  predicate Reachable(c: Catalog, p: Publication, aiven: bool, conforming: bool) {
    && Sendable(p, aiven, conforming)
    && Acceptable(p, c.tables.Keys)
    && (NameOf(p) in c.publications ==>
          p.tables != [] && !c.publications[NameOf(p)].coverage.Everything? && conforming)
  }

  /** How many calls it takes: CREATE, and two ALTERs when that says the publication exists. */
  function CallsNeeded(c: Catalog, p: Publication): nat {
    if NameOf(p) in c.publications then 3 else 1
  }

  lemma WithEntryTwice(c: Catalog, name: string, a: Option<Entry>, b: Option<Entry>)
    ensures WithEntry(WithEntry(c, name, a), name, b) == WithEntry(c, name, b)
    ensures Find(WithEntry(c, name, a).publications, name) == a
  {
  }

  /** The second ALTER completes what the first has begun. */
  lemma SecondAlter(c: Catalog, e: Entry, p: Publication)
    requires p.tables != []
    ensures var (after, code) := Apply(WithEntry(c, NameOf(p), Some(Retabled(e, p))), SetPublishOf(p));
            (code == None <==> PublishSet(PublishOf(p)).Some?) &&
            (code == None ==> after == WithEntry(c, NameOf(p), Some(Wanted(p))))
  {
    var middle := WithEntry(c, NameOf(p), Some(Retabled(e, p)));
    SetPublishEffect(middle, p);
    WithEntryTwice(c, NameOf(p), Some(Retabled(e, p)), None);
    if PublishSet(PublishOf(p)).Some? {
      WithEntryTwice(c, NameOf(p), Some(Retabled(e, p)), Some(Wanted(p)));
      assert Retabled(e, p).(operations := PublishSet(PublishOf(p)).value) == Wanted(p);
    }
  }

  /** The two ALTERs succeed if and only if there is an entry that can be altered and both get through. */
  lemma AltersExactly(c: Catalog, fates: seq<Fate>, p: Publication, conforming: bool)
    ensures var (after, _, ok) := AlterRun(c, fates, p, conforming);
            (ok <==>
              && NameOf(p) in c.publications && Reachable(c, p, false, conforming)
              && DeliveredUpTo(fates, 2)) &&
            (ok ==> after == WithEntry(c, NameOf(p), Some(Wanted(p))))
  {
    SetTablesEffect(c, p);
    DeliveredCons(fates, 1);
    DeliveredCons(Later(fates), 0);
    var (c1, code) := Carried(c, SetTablesOf(p));
    assert Serve(c, Next(fates), SetTablesOf(p)).1 == Done <==> Next(fates) == Delivered && code == None;
    if Next(fates) == Delivered && code == None && conforming {
      SecondAlter(c, c.publications[NameOf(p)], p);
      assert Serve(c1, Next(Later(fates)), Some(SetPublishOf(p))).1 == Done <==>
             Next(Later(fates)) == Delivered && Apply(c1, SetPublishOf(p)).1 == None;
    }
  }

  lemma PresentIsAltered(c: Catalog, fates: seq<Fate>, p: Publication, conforming: bool, onEmpty: Option<Scope>)
    requires AllDelivered(fates) && NameOf(p) in c.publications
    ensures var run := ReconcileRun(c, fates, p, false, conforming, onEmpty);
            if p.operations != [] && !conforming then !run.2 else run == AlterRun(c, Later(fates), p, conforming)
  {
    CreateEffect(c, p);
  }

  /**
   Without faults, reconcile succeeds exactly when the entry is within reach, and then leaves the same
   entry whether it created the publication or altered it. Nothing else changes.
   */
  lemma AlterRefinesCreate(c: Catalog, fates: seq<Fate>, p: Publication, conforming: bool, onEmpty: Option<Scope>)
    requires AllDelivered(fates)
    ensures var (after, _, ok) := ReconcileRun(c, fates, p, false, conforming, onEmpty);
            (ok <==> Reachable(c, p, false, conforming)) &&
            (ok ==> after == WithEntry(c, NameOf(p), Some(Wanted(p))))
  {
    SucceedsExactly(c, fates, p, false, conforming, onEmpty);
  }

  // ---------------------------------------------------------------------------------------------------
  // aiven_extras
  // ---------------------------------------------------------------------------------------------------

  lemma ReadTableUndoes(table: TableName)
    ensures ReadTable(Sanitize(table.Ident())) == Some(table.Clean())
  {
    var ident := table.Ident();
    ReadsSanitized(ident);
    ReadsAll(Sanitize(ident), IdentTokens(ident), false);
    assert IdentTokens(ident) == IdentTokens(ident) + [];
    ParseTableUndoes(table, []);
  }

  lemma {:induction false} ReadTableTextsUndoes(tables: seq<TableName>)
    ensures ReadTableTexts(TableTexts(tables)) == Some(CleanTables(tables))
  {
    if tables != [] {
      ReadTableUndoes(tables[0]);
      assert TableTexts(tables)[1..] == TableTexts(tables[1..]);
      ReadTableTextsUndoes(tables[1..]);
      assert CleanTables(tables) == [tables[0].Clean()] + CleanTables(tables[1..]);
    } else {
      assert CleanTables(tables) == [];
    }
  }

  lemma AivenCreates(p: Publication, onEmpty: Option<Scope>)
    requires NulFree(p.name) && NulFree(JoinedOperations(p)) && p.tables != []
    ensures AivenCreateOf(p, onEmpty)
         == Some(CreatePublication(NameOf(p), OnlyTables(CleanTables(p.tables)), Some(JoinedOperations(p))))
  {
    StripNulFree(p.name);
    ReadTableTextsUndoes(p.tables);
  }

  lemma SameServed(c: Catalog, fate: Fate, s: Statement, t: Statement)
    requires Apply(c, s) == Apply(c, t)
    ensures Serve(c, fate, Some(s)) == Serve(c, fate, Some(t))
  {
  }

  lemma SameCreation(c: Catalog, s: Statement, t: Statement)
    requires s.CreatePublication? && t.CreatePublication?
    requires s.name == t.name && s.scope == t.scope && PublishSet(s.publish) == PublishSet(t.publish)
    ensures Apply(c, s) == Apply(c, t)
  {
    assert EntryAfter(Find(c.publications, s.name), c.tables.Keys, s)
           == EntryAfter(Find(c.publications, t.name), c.tables.Keys, t);
  }

  /** With tables, what the call to aiven_extras does, if it can be made, is what CREATE would do. */
  lemma AivenCreateEffect(c: Catalog, p: Publication, onEmpty: Option<Scope>)
    requires p.tables != []
    ensures AivenCreateOf(p, onEmpty).Some? <==> NulFree(p.name) && NulFree(JoinedOperations(p))
    ensures AivenCreateOf(p, onEmpty).Some? ==> Apply(c, AivenCreateOf(p, onEmpty).value) == Apply(c, CreateOf(p))
  {
    if NulFree(p.name) && NulFree(JoinedOperations(p)) {
      AivenCreates(p, onEmpty);
      OmittedMeansAll(p);
      SameCreation(c, AivenCreateOf(p, onEmpty).value, CreateOf(p));
    }
  }

  /**
   When the two managers can stand in for each other: no NUL is in the way of the text parameters, and the
   standard path, which escapes the operations where Aiven passes them as they are, can escape them.
   */
  predicate Interchangeable(p: Publication, conforming: bool) {
    NulFree(p.name) && NulFree(JoinedOperations(p)) && (conforming || p.operations == [])
  }

  /** The two paths agree on the catalog, the use of the connection and the result, whatever fails. */
  lemma AivenAgrees(c: Catalog, fates: seq<Fate>, p: Publication, conforming: bool, onEmpty: Option<Scope>)
    requires Interchangeable(p, conforming) && p.tables != []
    ensures ReconcileRun(c, fates, p, true, conforming, onEmpty)
            == ReconcileRun(c, fates, p, false, conforming, onEmpty)
  {
    AivenCreateEffect(c, p, onEmpty);
    SameServed(c, Next(fates), AivenCreateOf(p, onEmpty).value, CreateOf(p));
  }

  ghost predicate AlwaysAgree(p: Publication, conforming: bool, onEmpty: Option<Scope>) {
    forall c, fates ::
      ReconcileRun(c, fates, p, true, conforming, onEmpty) == ReconcileRun(c, fates, p, false, conforming, onEmpty)
  }

  /** A catalog in which the publication exists, but without tables. */
  function Emptied(p: Publication): Catalog {
    Catalog(map[NameOf(p) := Entry(Listed({}), {})], {}, {},
            map t | t in TableSet(CleanTables(p.tables)) :: TableEntry([], {}), {})
  }

  /** There the first ALTER changes something. */
  lemma EmptiedIsAltered(p: Publication, fates: seq<Fate>, conforming: bool)
    requires p.tables != [] && AllDelivered(fates)
    ensures AlterRun(Emptied(p), fates, p, conforming).0 != Emptied(p)
  {
    var c := Emptied(p);
    SetTablesEffect(c, p);
    var e := c.publications[NameOf(p)];
    assert CleanTables(p.tables)[0] in TableSet(CleanTables(p.tables));
    assert Carried(c, SetTablesOf(p)).1 == None;
    SecondAlter(c, e, p);
    RefusedChangesNothing(Carried(c, SetTablesOf(p)).0, SetPublishOf(p));
  }

  lemma NulStopsAiven(c: Catalog, p: Publication, conforming: bool, onEmpty: Option<Scope>)
    requires p.tables != [] && !(NulFree(p.name) && NulFree(JoinedOperations(p)))
    ensures ReconcileRun(c, [Delivered], p, true, conforming, onEmpty) == (c, [], false)
  {
    AivenCreateEffect(c, p, onEmpty);
  }

  /** They always agree if and only if they are interchangeable. */
  lemma AivenAgreesExactly(p: Publication, conforming: bool, onEmpty: Option<Scope>)
    requires p.tables != []
    ensures AlwaysAgree(p, conforming, onEmpty) <==> Interchangeable(p, conforming)
  {
    if Interchangeable(p, conforming) {
      forall c, fates
        ensures ReconcileRun(c, fates, p, true, conforming, onEmpty)
                == ReconcileRun(c, fates, p, false, conforming, onEmpty)
      {
        AivenAgrees(c, fates, p, conforming, onEmpty);
      }
    } else {
      TheyDiffer(p, conforming, onEmpty);
    }
  }

  lemma TheyDiffer(p: Publication, conforming: bool, onEmpty: Option<Scope>)
    requires p.tables != [] && !Interchangeable(p, conforming)
    ensures ReconcileRun(Emptied(p), [Delivered], p, true, conforming, onEmpty)
         != ReconcileRun(Emptied(p), [Delivered], p, false, conforming, onEmpty)
  {
    var c := Emptied(p);
    if !conforming && p.operations != [] {
      assert ReconcileRun(c, [Delivered], p, false, conforming, onEmpty).1 == [Delivered];
      assert ReconcileRun(c, [Delivered], p, true, conforming, onEmpty).1 == [];
    } else {
      NulStopsAiven(c, p, conforming, onEmpty);
      PresentIsAltered(c, [Delivered], p, conforming, onEmpty);
      EmptiedIsAltered(p, [], conforming);
    }
  }

  // ---------------------------------------------------------------------------------------------------
  // Whatever fails
  // ---------------------------------------------------------------------------------------------------

  lemma CreateRunEffect(c: Catalog, fates: seq<Fate>, p: Publication, aiven: bool, conforming: bool,
                        onEmpty: Option<Scope>)
    requires aiven ==> p.tables != []
    ensures var e := Find(c.publications, NameOf(p));
            var (after, _, creation) := CreateRun(c, fates, p, aiven, conforming, onEmpty);
            (after == c || (Acceptable(p, c.tables.Keys) && after == WithEntry(c, NameOf(p), Some(Wanted(p))))) &&
            (creation == Existed ==> after == c && e.Some?)
  {
    CreateEffect(c, p);
    if aiven {
      AivenCreateEffect(c, p, onEmpty);
    }
  }

  lemma CreateRunExactly(c: Catalog, fates: seq<Fate>, p: Publication, aiven: bool, conforming: bool,
                         onEmpty: Option<Scope>)
    requires aiven ==> p.tables != []
    ensures var e := Find(c.publications, NameOf(p));
            var (after, later, creation) := CreateRun(c, fates, p, aiven, conforming, onEmpty);
            var sent := Sendable(p, aiven, conforming) && Next(fates) == Delivered;
            && (creation == Created <==> sent && e.None? && Acceptable(p, c.tables.Keys))
            && (creation == Existed <==> sent && e.Some?)
            && (creation == Created ==> after == WithEntry(c, NameOf(p), Some(Wanted(p))))
            && (creation == Existed ==> after == c && later == Later(fates))
  {
    CreateEffect(c, p);
    if aiven {
      AivenCreateEffect(c, p, onEmpty);
    }
  }

  /**
   Whatever the fates and through either manager, success means that the entry is the wanted one and that
   nothing else has changed; and it is reported if and only if the entry is within reach and each of the
   calls that it takes was carried out and answered.
   */
  lemma SucceedsExactly(c: Catalog, fates: seq<Fate>, p: Publication, aiven: bool, conforming: bool,
                        onEmpty: Option<Scope>)
    requires aiven ==> p.tables != []
    ensures var (after, _, ok) := ReconcileRun(c, fates, p, aiven, conforming, onEmpty);
            (ok <==> Reachable(c, p, aiven, conforming) && DeliveredUpTo(fates, CallsNeeded(c, p))) &&
            (ok ==> after == WithEntry(c, NameOf(p), Some(Wanted(p))))
  {
    CreateRunExactly(c, fates, p, aiven, conforming, onEmpty);
    DeliveredCons(fates, CallsNeeded(c, p) - 1);
    if NameOf(p) in c.publications {
      AltersExactly(c, Later(fates), p, conforming);
    }
  }

  /** The entry that the extension makes when it is given no tables and takes that to mean this scope. */
  function OnEmptyEntry(p: Publication, scope: Scope): Entry
    requires PublishSet(PublishOf(p)).Some?
  {
    Entry(if scope.AllTables? then Everything else Listed(TableSet(scope.tables)), PublishSet(PublishOf(p)).value)
  }

  lemma AivenEmptyRequest(p: Publication, onEmpty: Option<Scope>)
    requires p.tables == []
    ensures AivenCreateOf(p, onEmpty)
         == if Sendable(p, true, true) && onEmpty.Some?
              then Some(CreatePublication(NameOf(p), onEmpty.value, Some(JoinedOperations(p)))) else None
  {
    assert TableTexts(p.tables) == [];
    if NulFree(p.name) {
      StripNulFree(p.name);
    }
  }

  lemma OnEmptyEffect(c: Catalog, p: Publication, scope: Scope)
    ensures var (after, code) := Apply(c, CreatePublication(NameOf(p), scope, Some(JoinedOperations(p))));
            (code == Some(DuplicateObject) <==> NameOf(p) in c.publications) &&
            (code == None <==>
              && NameOf(p) !in c.publications && PublishSet(PublishOf(p)).Some?
              && (scope.OnlyTables? ==> TableSet(scope.tables) <= c.tables.Keys)) &&
            (code == None ==> after == WithEntry(c, NameOf(p), Some(OnEmptyEntry(p, scope))))
  {
    OmittedMeansAll(p);
    PutSame(c.publications, NameOf(p));
  }

  predicate ReachableOnEmpty(c: Catalog, p: Publication, onEmpty: Option<Scope>) {
    && Sendable(p, true, true) && NameOf(p) !in c.publications && PublishSet(PublishOf(p)).Some?
    && onEmpty.Some? && (onEmpty.value.OnlyTables? ==> TableSet(onEmpty.value.tables) <= c.tables.Keys)
  }

  /** Through aiven_extras and without tables, only an absent publication can be reconciled. */
  lemma AivenWithoutTables(c: Catalog, fates: seq<Fate>, p: Publication, conforming: bool, onEmpty: Option<Scope>)
    requires p.tables == []
    ensures var (after, _, ok) := ReconcileRun(c, fates, p, true, conforming, onEmpty);
            (ok <==> ReachableOnEmpty(c, p, onEmpty) && Next(fates) == Delivered) &&
            (ok ==> after == WithEntry(c, NameOf(p), Some(OnEmptyEntry(p, onEmpty.value))))
  {
    AivenEmptyRequest(p, onEmpty);
    if onEmpty.Some? {
      OnEmptyEffect(c, p, onEmpty.value);
    }
    var (c1, f1, creation) := CreateRun(c, fates, p, true, conforming, onEmpty);
    assert !AlterRun(c1, f1, p, conforming).2;
  }

  /** Success is possible, whichever way the publication is asked for. */
  predicate Attainable(c: Catalog, p: Publication, aiven: bool, conforming: bool, onEmpty: Option<Scope>) {
    if aiven && p.tables == [] then ReachableOnEmpty(c, p, onEmpty) else Reachable(c, p, aiven, conforming)
  }

  /** The entry that success leaves; the wanted one wherever the repository says what that is. */
  function Attained(p: Publication, aiven: bool, onEmpty: Option<Scope>): Option<Entry> {
    if PublishSet(PublishOf(p)).None? then None
    else if p.tables != [] || !aiven then Some(Wanted(p))
    else if onEmpty.None? then None
    else Some(OnEmptyEntry(p, onEmpty.value))
  }

  /** The two cases together. */
  lemma Attains(c: Catalog, fates: seq<Fate>, p: Publication, aiven: bool, conforming: bool, onEmpty: Option<Scope>)
    ensures var (after, _, ok) := ReconcileRun(c, fates, p, aiven, conforming, onEmpty);
            (ok <==> Attainable(c, p, aiven, conforming, onEmpty) && DeliveredUpTo(fates, CallsNeeded(c, p))) &&
            (ok ==> Attained(p, aiven, onEmpty).Some? && after == WithEntry(c, NameOf(p), Attained(p, aiven, onEmpty)))
  {
    if aiven && p.tables == [] {
      AivenWithoutTables(c, fates, p, conforming, onEmpty);
      DeliveredCons(fates, 0);
    } else {
      SucceedsExactly(c, fates, p, aiven, conforming, onEmpty);
    }
  }

  lemma AlterRunEffect(c: Catalog, fates: seq<Fate>, p: Publication, conforming: bool)
    ensures var e := Find(c.publications, NameOf(p));
            var after := AlterRun(c, fates, p, conforming).0;
            || after == c
            || (Acceptable(p, c.tables.Keys) && after == WithEntry(c, NameOf(p), Some(Wanted(p))))
            || (e.Some? && p.tables != [] && !e.value.coverage.Everything?
                && after == WithEntry(c, NameOf(p), Some(Retabled(e.value, p))))
  {
    SetTablesEffect(c, p);
    var (c1, r1) := Serve(c, Next(fates), SetTablesOf(p));
    if r1 == Done && conforming {
      var e := c.publications[NameOf(p)];
      assert c1 == WithEntry(c, NameOf(p), Some(Retabled(e, p)));
      SecondAlter(c, e, p);
      RefusedChangesNothing(c1, SetPublishOf(p));
    }
  }

  lemma RefusedChangesNothing(c: Catalog, s: Statement)
    requires s.SetPublish?
    ensures Apply(c, s).1 != None ==> Apply(c, s).0 == c
  {
    PutSame(c.publications, s.name);
  }

  /**
   Whatever fails and wherever it stops, the entry is the old one, the one asked for, or the old one with
   the new tables, and nothing else in the catalog changes. With tables, that is so for both managers.
   */
  lemma OnlyThreeEntries(c: Catalog, fates: seq<Fate>, p: Publication, aiven: bool, conforming: bool,
                         onEmpty: Option<Scope>)
    requires aiven ==> p.tables != []
    ensures var e := Find(c.publications, NameOf(p));
            var after := ReconcileRun(c, fates, p, aiven, conforming, onEmpty).0;
            || after == c
            || (Acceptable(p, c.tables.Keys) && after == WithEntry(c, NameOf(p), Some(Wanted(p))))
            || (e.Some? && p.tables != [] && !e.value.coverage.Everything?
                && after == WithEntry(c, NameOf(p), Some(Retabled(e.value, p))))
  {
    CreateRunEffect(c, fates, p, aiven, conforming, onEmpty);
    var (c1, f1, _) := CreateRun(c, fates, p, aiven, conforming, onEmpty);
    AlterRunEffect(c1, f1, p, conforming);
  }

  /** One attempt: the specification and the manager at the time, and what became of its calls. */
  datatype Attempt = Attempt(spec: Publication, fates: seq<Fate>, aiven: bool, conforming: bool)

  function History(c: Catalog, attempts: seq<Attempt>): Catalog {
    if attempts == [] then c
    else
      var last := attempts[|attempts| - 1];
      ReconcileRun(History(c, attempts[..|attempts| - 1]), last.fates, last.spec, last.aiven, last.conforming, None).0
  }

  predicate NotEverything(c: Catalog, name: string) {
    name in c.publications ==> !c.publications[name].coverage.Everything?
  }

  lemma HistoryAppends(c: Catalog, attempts: seq<Attempt>, last: Attempt)
    ensures History(c, attempts + [last])
         == ReconcileRun(History(c, attempts), last.fates, last.spec, last.aiven, last.conforming, None).0
  {
    var all := attempts + [last];
    assert all[..|all| - 1] == attempts && all[|all| - 1] == last;
  }

  lemma AttemptKeeps(c: Catalog, before: Catalog, a: Attempt, name: string)
    requires NotEverything(before, name) && before == WithEntry(c, name, Find(before.publications, name))
    requires NameOf(a.spec) == name && a.spec.tables != []
    ensures var after := ReconcileRun(before, a.fates, a.spec, a.aiven, a.conforming, None).0;
            NotEverything(after, name) && after == WithEntry(c, name, Find(after.publications, name))
  {
    var old_ := Find(before.publications, name);
    OnlyThreeEntries(before, a.fates, a.spec, a.aiven, a.conforming, None);
    var after := ReconcileRun(before, a.fates, a.spec, a.aiven, a.conforming, None).0;
    WithEntryTwice(c, name, old_, Find(after.publications, name));
  }

  lemma {:induction false} HistoryKeeps(c: Catalog, attempts: seq<Attempt>, name: string)
    requires NotEverything(c, name)
    requires forall a :: a in attempts ==> NameOf(a.spec) == name && a.spec.tables != []
    ensures var after := History(c, attempts);
            NotEverything(after, name) && after == WithEntry(c, name, Find(after.publications, name))
  {
    if attempts == [] {
      PutSame(c.publications, name);
    } else {
      var rest, last := attempts[..|attempts| - 1], attempts[|attempts| - 1];
      assert last in attempts;
      HistoryKeeps(c, rest, name);
      AttemptKeeps(c, History(c, rest), last, name);
    }
  }

  /**
   After any sequence of specifications, managers and failures, the first fault-free reconcile depends only
   on the last specification.
   */
  lemma LastSpecificationWins(c: Catalog, attempts: seq<Attempt>, p: Publication, fates: seq<Fate>, aiven: bool)
    requires NotEverything(c, NameOf(p))
    requires forall a :: a in attempts ==> NameOf(a.spec) == NameOf(p) && a.spec.tables != []
    requires AllDelivered(fates) && p.tables != [] && Acceptable(p, c.tables.Keys)
    requires aiven ==> Interchangeable(p, true)
    ensures History(c, attempts + [Attempt(p, fates, aiven, true)]) == WithEntry(c, NameOf(p), Some(Wanted(p)))
  {
    HistoryKeeps(c, attempts, NameOf(p));
    var before := History(c, attempts);
    HistoryAppends(c, attempts, Attempt(p, fates, aiven, true));
    if aiven {
      AivenAgrees(before, fates, p, true, None);
    }
    AlterRefinesCreate(before, fates, p, true, None);
    assert Reachable(before, p, false, true);
    WithEntryTwice(c, NameOf(p), Find(before.publications, NameOf(p)), Some(Wanted(p)));
  }

  /** A publication of all tables is out of reach of every later specification, through either manager. */
  lemma EverythingIsStuck(c: Catalog, fates: seq<Fate>, p: Publication, aiven: bool, conforming: bool,
                          onEmpty: Option<Scope>)
    requires NameOf(p) in c.publications && c.publications[NameOf(p)].coverage.Everything?
    ensures ReconcileRun(c, fates, p, aiven, conforming, onEmpty).0 == c
    ensures !ReconcileRun(c, fates, p, aiven, conforming, onEmpty).2
  {
    CreateEffect(c, p);
    SetTablesEffect(c, p);
    CreateRequestNames(p, aiven, onEmpty);
    PutSame(c.publications, NameOf(p));
  }

  /** What is sent to create a publication; None when a text parameter cannot be. */
  function CreateRequest(p: Publication, aiven: bool, onEmpty: Option<Scope>): Option<Statement> {
    if aiven then AivenCreateOf(p, onEmpty) else Some(CreateOf(p))
  }

  lemma CreateRequestNames(p: Publication, aiven: bool, onEmpty: Option<Scope>)
    ensures var request := CreateRequest(p, aiven, onEmpty);
            request.Some? ==> request.value.CreatePublication? && request.value.name == NameOf(p)
  {
    if NulFree(p.name) {
      StripNulFree(p.name);
    }
  }
}
