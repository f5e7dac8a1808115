/**
 controllers/postgrespublication_controller.go. The method Reconcile is proved to be a run of the protocol
 machine, call by call and fault by fault, and, when nothing fails, to have one stated outcome.
 */
module PublicationController {
  import opened Wrappers
  import opened Specs
  import opened SqlGrammar
  import opened Postgres
  import opened PublicationManager
  import opened PublicationRefinement
  import opened Kube
  import opened PublicationProtocol

  const VARIANT_STANDARD: string := "standard"
  const VARIANT_AIVEN: string := "aiven"

  /** (ctrl.Result, error): nothing more to do, Requeue, or an error, which also means another attempt. */
  datatype Verdict = Finished | Requeued | Errored

  // ---------------------------------------------------------------------------------------------------
  // The steps that a reconcile takes
  // ---------------------------------------------------------------------------------------------------

  /** The two stores, and what becomes of the calls to each. */
  datatype Stores = Stores(api: Api, apiFates: seq<Fate>, catalog: Catalog, dbFates: seq<Fate>)

  /** One update request; on success the caller holds the stored object. */
  function UpdateRun(st: Stores, key: string, update: Obj): (Stores, bool, Obj) {
    var (api, ok) := Answer(st.api, Next(st.apiFates), key, UpdateAt(Find(st.api.objs, key), st.api.clock, update));
    (st.(api := api, apiFates := Later(st.apiFates)), ok, if ok && key in api.objs then api.objs[key] else update)
  }

  function DropRun(st: Stores, p: Publication): (Stores, bool) {
    var (c, reply) := Serve(st.catalog, Next(st.dbFates), Some(DropPublication(NameOf(p))));
    (st.(catalog := c, dbFates := Later(st.dbFates)), reply == Done)
  }

  datatype Handled = Handled(st: Stores, stop: bool, failed: bool, o: Obj)

  /** The finalizer comes before anything in the database, and the DROP before the end of the finalizer. */
  function FinalizersRun(st: Stores, key: string, o: Obj): Handled {
    if !o.body.deleting then
      if Has(o) then Handled(st, false, false, o)
      else
        var (after, ok, stored) := UpdateRun(st, key, WithFinalizer(o));
        Handled(after, false, !ok, if ok then stored else o)
    else if !Has(o) then Handled(st, true, false, o)
    else
      var (dropped, ok) := DropRun(st, o.body.spec.publication);
      if !ok then Handled(dropped, false, true, o)
      else
        var (released, ok2, _) := UpdateRun(dropped, key, WithoutFinalizer(o));
        Handled(released, ok2, !ok2, o)
  }

  function PublicationRun(st: Stores, key: string, cached: Option<Obj>, connects: bool, conforming: bool,
                          onEmpty: Option<Scope>)
    : (Stores, Verdict)
  {
    if cached.None? then (st, Finished)
    else if !connects || !KnownVariant(cached.value.body.spec.ref.variant) then (st, Requeued)
    else
      var h := FinalizersRun(st, key, cached.value);
      if h.failed then (h.st, Errored)
      else if h.stop then (h.st, Finished)
      else
        var (c, fates, ok) := ReconcileRun(h.st.catalog, h.st.dbFates, h.o.body.spec.publication,
                                           cached.value.body.spec.ref.variant == VARIANT_AIVEN, conforming, onEmpty);
        (h.st.(catalog := c, dbFates := fates), if ok then Finished else Requeued)
  }

  /** The machine agrees with the two stores about one resource. */
  ghost predicate Agrees(s: Slot, key: string, name: string, api: Api, c: Catalog) {
    && s.name == name
    && s.history != []
    && Latest(s) == Find(api.objs, key)
    && s.clock == api.clock
    && s.entry == Find(c.publications, name)
    && s.known == c.tables.Keys
  }

  /** Steps the publication controller takes itself. */
  predicate IsOwnStep(step: Step) {
    !step.UserCreate? && !step.UserUpdate? && !step.UserDelete? && !step.ForeignSql?
  }

  predicate OwnSteps(steps: seq<Step>) {
    forall i :: 0 <= i < |steps| ==> IsOwnStep(steps[i])
  }

  function AlterSteps(c: Catalog, fates: seq<Fate>, p: Publication, conforming: bool): seq<Step> {
    if SetTablesOf(p).None? || Next(fates) == Lost then [Stop]
    else
      var first := Alter(SetTablesOf(p).value);
      if Serve(c, Next(fates), SetTablesOf(p)).1 != Done || !conforming || Next(Later(fates)) == Lost then [first, Stop]
      else [first, Alter(SetPublishOf(p)), Stop]
  }

  function ReconcileSteps(c: Catalog, fates: seq<Fate>, p: Publication, aiven: bool, conforming: bool,
                          onEmpty: Option<Scope>): seq<Step> {
    var request := CreateRequest(p, aiven, onEmpty);
    if (!aiven && p.operations != [] && !conforming) || request.None? || Next(fates) == Lost then [Stop]
    else
      var (c1, f1, creation) := CreateRun(c, fates, p, aiven, conforming, onEmpty);
      if creation == Existed then [Create(request.value)] + AlterSteps(c1, f1, p, conforming)
        else [Create(request.value), Stop]
  }

  /** A statement about one publication does to the catalog what EntryAfter does to its entry. */
  lemma StatementOnEntry(c: Catalog, fate: Fate, s: Statement)
    requires IsPublicationStatement(s)
    ensures var (entry, code) := EntryAfter(Find(c.publications, s.name), c.tables.Keys, s);
            var (after, reply) := Serve(c, fate, Some(s));
            && after == WithEntry(c, s.name, if fate == Lost then Find(c.publications, s.name) else entry)
            && Find(after.publications, s.name) == (if fate == Lost then Find(c.publications, s.name) else entry)
            && (reply == Done <==> fate == Delivered && code == None)
            && (fate == Delivered && code.Some? ==> reply == Refused(code.value))
            && (fate != Delivered ==> reply == Broken)
  {
    PutSame(c.publications, s.name);
  }

  /** One ALTER that reaches the server, in the machine and in the catalog. */
  lemma AlterServed(s: Slot, c: Catalog, fate: Fate, statement: Statement)
    requires s.history != [] && s.worker.Altering? && Ours(s)
    requires (statement.SetTables? || statement.SetPublish?) && statement.name == s.name
    requires s.entry == Find(c.publications, statement.name) && s.known == c.tables.Keys && fate != Lost
    ensures var (after, reply) := Serve(c, fate, Some(statement));
            var t := Do(s, Alter(statement));
            && t == s.(entry := Find(after.publications, statement.name), worker := t.worker)
            && (reply == Done ==> t.worker == s.worker)
            && after == WithEntry(c, statement.name, t.entry)
            && after.tables == c.tables
  {
    StatementOnEntry(c, fate, statement);
  }

  /** Where the catalog stands after the first ALTER, and whether the second follows. */
  function AlterFirst(c: Catalog, fates: seq<Fate>, p: Publication): (Catalog, Reply) {
    Serve(c, Next(fates), SetTablesOf(p))
  }

  lemma AlterRunIs(c: Catalog, fates: seq<Fate>, p: Publication, conforming: bool)
    ensures var (c1, r1) := AlterFirst(c, fates, p);
            AlterRun(c, fates, p, conforming).0 ==
            if r1 != Done || !conforming then c1 else Serve(c1, Next(Later(fates)), Some(SetPublishOf(p))).0
    ensures SetTablesOf(p).None? || Next(fates) == Lost ==>
            AlterFirst(c, fates, p).0 == c && AlterFirst(c, fates, p).1 != Done
    ensures SetTablesOf(p).Some? && Next(fates) != Lost ==>
              AlterSteps(c, fates, p, conforming) ==
              if AlterFirst(c, fates, p).1 != Done || !conforming
                || Next(Later(fates)) == Lost then [Alter(SetTablesOf(p).value), Stop]
              else [Alter(SetTablesOf(p).value), Alter(SetPublishOf(p)), Stop]
  {
  }

  lemma AlterStepsRun(s: Slot, c: Catalog, fates: seq<Fate>, p: Publication, conforming: bool)
    requires s.history != [] && s.worker.Altering? && Ours(s) && s.name == NameOf(p)
    requires s.entry == Find(c.publications, NameOf(p)) && s.known == c.tables.Keys
    ensures var after := AlterRun(c, fates, p, conforming).0;
            Run(s, AlterSteps(c, fates, p, conforming))
              == s.(worker := Idle, entry := Find(after.publications, NameOf(p))) &&
            after == WithEntry(c, NameOf(p), Find(after.publications, NameOf(p)))
    ensures OwnSteps(AlterSteps(c, fates, p, conforming))
  {
    PutSame(c.publications, NameOf(p));
    RunOne(s, Stop);
    AlterRunIs(c, fates, p, conforming);
    if SetTablesOf(p).Some? && Next(fates) != Lost {
      var first := SetTablesOf(p).value;
      AlterServed(s, c, Next(fates), first);
      var (c1, r1) := AlterFirst(c, fates, p);
      var t := Do(s, Alter(first));
      RunTwo(s, Alter(first), Stop);
      if r1 == Done && conforming {
        if Next(Later(fates)) == Lost {
          assert Serve(c1, Lost, Some(SetPublishOf(p))).0 == c1;
        } else {
          AlterServed(t, c1, Next(Later(fates)), SetPublishOf(p));
          WithEntryTwice(c, NameOf(p), t.entry, Do(t, Alter(SetPublishOf(p))).entry);
          RunThree(s, Alter(first), Alter(SetPublishOf(p)), Stop);
        }
      }
    }
  }

  /** A CREATE that reaches the server, in the machine and in the catalog. */
  lemma CreateServed(s: Slot, c: Catalog, fate: Fate, statement: Statement)
    requires s.history != [] && s.worker.Ready? && Ours(s) && statement.CreatePublication? && statement.name == s.name
    requires s.entry == Find(c.publications, statement.name) && s.known == c.tables.Keys && fate != Lost
    ensures var (after, reply) := Serve(c, fate, Some(statement));
            var t := Do(s, Create(statement));
            && t == s.(entry := Find(after.publications, statement.name), worker := t.worker, maker := t.maker)
            && (Judge(reply) == Existed ==> t.worker == Altering(s.worker.o) && after == c)
            && after == WithEntry(c, statement.name, t.entry)
  {
    StatementOnEntry(c, fate, statement);
    PutSame(c.publications, statement.name);
  }

  lemma CreateRunIs(c: Catalog, fates: seq<Fate>, p: Publication, aiven: bool, conforming: bool, onEmpty: Option<Scope>)
    ensures var request := CreateRequest(p, aiven, onEmpty);
            var (c1, f1, creation) := CreateRun(c, fates, p, aiven, conforming, onEmpty);
            if (!aiven && p.operations != [] && !conforming) || request.None? || Next(fates) == Lost then
              c1 == c && creation == CreationFailed
            else
              c1 == Serve(c, Next(fates), request).0 && creation == Judge(Serve(c, Next(fates), request).1)
  {
  }

  /** The part after the finalizer, as steps from Ready to Idle. */
  lemma ReconcileStepsRun(s: Slot, c: Catalog, fates: seq<Fate>, p: Publication, aiven: bool, conforming: bool,
                          onEmpty: Option<Scope>)
    requires s.history != [] && s.worker.Ready? && Ours(s) && s.name == NameOf(p)
    requires s.entry == Find(c.publications, NameOf(p)) && s.known == c.tables.Keys
    ensures var after := ReconcileRun(c, fates, p, aiven, conforming, onEmpty).0;
            var t := Run(s, ReconcileSteps(c, fates, p, aiven, conforming, onEmpty));
            && t.worker == Idle && t.history == s.history && t.clock == s.clock && t.known == s.known
               && t.name == s.name
            && t.entry == Find(after.publications, NameOf(p))
            && after == WithEntry(c, NameOf(p), t.entry)
    ensures OwnSteps(ReconcileSteps(c, fates, p, aiven, conforming, onEmpty))
  {
    PutSame(c.publications, NameOf(p));
    RunOne(s, Stop);
    CreateRequestNames(p, aiven, onEmpty);
    CreateRunIs(c, fates, p, aiven, conforming, onEmpty);
    var request := CreateRequest(p, aiven, onEmpty);
    if !(!aiven && p.operations != [] && !conforming) && request.Some? && Next(fates) != Lost {
      CreateServed(s, c, Next(fates), request.value);
      var (c1, f1, creation) := CreateRun(c, fates, p, aiven, conforming, onEmpty);
      var t := Do(s, Create(request.value));
      if creation == Existed {
        AlterStepsRun(t, c1, f1, p, conforming);
        RunAppends(s, [Create(request.value)], AlterSteps(c1, f1, p, conforming));
        RunOne(s, Create(request.value));
      } else {
        RunTwo(s, Create(request.value), Stop);
      }
    }
  }

  /** A reconcile changes no publication but the one it is about, and no table. */
  lemma ReconcileTouchesOne(c: Catalog, fates: seq<Fate>, p: Publication, aiven: bool, conforming: bool,
                            onEmpty: Option<Scope>)
    ensures var after := ReconcileRun(c, fates, p, aiven, conforming, onEmpty).0;
            after == WithEntry(c, NameOf(p), Find(after.publications, NameOf(p)))
  {
    var o := Obj(0, 0, Body([], ResourceSpec(PostgresRef("", 0, "", "", ""), p), [], false));
    var ready := Slot(NameOf(p), [None], 0, 0, Find(c.publications, NameOf(p)), c.tables.Keys, Ready(o), None, {});
    ReconcileStepsRun(ready, c, fates, p, aiven, conforming, onEmpty);
  }

  // ---------------------------------------------------------------------------------------------------
  // The fault-free outcome
  // ---------------------------------------------------------------------------------------------------

  /** Objects without their identities and versions, and the catalog. */
  datatype World = World(bodies: map<string, Body>, catalog: Catalog)

  predicate KnownVariant(variant: string) {
    variant == "" || variant == VARIANT_STANDARD || variant == VARIANT_AIVEN
  }

  predicate Holds(b: Body) {
    FINALIZER in b.finalizers
  }

  /** What one undisturbed reconcile of an up-to-date object does to the two stores. */
  function Settle(w: World, key: string, conforming: bool, onEmpty: Option<Scope>): World {
    if key !in w.bodies || !KnownVariant(w.bodies[key].spec.ref.variant) then w
    else
      var b := w.bodies[key];
      var p := b.spec.publication;
      if b.deleting then
        if Holds(b) && NameOf(p) in w.catalog.publications then
          var left := Without(b.finalizers, FINALIZER);
          World(Put(w.bodies, key, if left == [] then None else Some(b.(finalizers := left))),
                WithEntry(w.catalog, NameOf(p), None))
        else w
      else
        World(w.bodies[key := b.(finalizers := if Holds(b) then b.finalizers else b.finalizers + [FINALIZER])],
              ReconcileRun(w.catalog, [], p, b.spec.ref.variant == VARIANT_AIVEN, conforming, onEmpty).0)
  }

  lemma FaultFreeScripts(c: Catalog, fates: seq<Fate>, p: Publication, aiven: bool, conforming: bool,
                         onEmpty: Option<Scope>)
    requires AllDelivered(fates)
    ensures ReconcileRun(c, fates, p, aiven, conforming, onEmpty).0
            == ReconcileRun(c, [], p, aiven, conforming, onEmpty).0
  {
    assert Next(fates) == Delivered && Next(Later(fates)) == Delivered && Next(Later(Later(fates))) == Delivered;
  }

  class PublicationReconciler {
    const server: ApiServer
    const db: Session

    constructor (server: ApiServer, db: Session)
      ensures this.server == server && this.db == db
    {
      this.server, this.db := server, db;
    }

    static method ContainsString(slice: seq<string>, s: string) returns (found: bool)
      ensures found <==> s in slice
    {
      for i := 0 to |slice|
        invariant s !in slice[..i]
      {
        if slice[i] == s {
          return true;
        }
      }
      return false;
    }

    method ManagerFor(variant: string) returns (manager: Option<Manager>)
      ensures manager.Some? <==> variant in {"", "standard", "aiven"}
      ensures manager.Some? ==> manager.value.Conn() == db && (manager.value.Aiven? <==> variant == "aiven")
    {
      if variant == VARIANT_STANDARD || variant == "" {
        var std := new StdManager(db);
        return Some(Standard(std));
      } else if variant == VARIANT_AIVEN {
        var std := new StdManager(db);
        var aiven := new AivenManager(std);
        return Some(Aiven(aiven));
      }
      return None;
    }

    method DeleteExternalResources(manager: Manager, publication: Obj) returns (ok: bool)
      requires manager.Conn() == db
      modifies db`catalog, db`fates
      ensures (Stores(server.api, server.fates, db.catalog, db.fates), ok)
           == DropRun(Stores(server.api, server.fates, old(db.catalog), old(db.fates)),
                      publication.body.spec.publication)
    {
      ok := manager.Std().DropPublication(publication.body.spec.publication.name);
    }

    method HandleFinalizers(key: string, manager: Manager, publication: Obj)
      returns (stop: bool, failed: bool, updated: Obj)
      requires manager.Conn() == db
      modifies server, db`catalog, db`fates
      ensures Handled(Stores(server.api, server.fates, db.catalog, db.fates), stop, failed, updated)
           == FinalizersRun(old(Stores(server.api, server.fates, db.catalog, db.fates)), key, publication)
    {
      updated := publication;
      if !publication.body.deleting {
        var present := ContainsString(publication.body.finalizers, FINALIZER);
        if !present {
          var ok;
          ok, updated := server.Update(key, WithFinalizer(publication));
          if !ok {
            return false, true, publication;
          }
        }
      } else {
        var present := ContainsString(publication.body.finalizers, FINALIZER);
        if present {
          var dropped := DeleteExternalResources(manager, publication);
          if !dropped {
            return false, true, publication;
          }
          var ok, _ := server.Update(key, WithoutFinalizer(publication));
          if !ok {
            return false, true, publication;
          }
        }
        return true, false, publication;
      }
      return false, false, updated;
    }

    /** `cached` is what the cache answers for the key, and `connects` whether the database can be reached. */
    method Reconcile(key: string, cached: Option<Obj>, connects: bool) returns (verdict: Verdict)
      modifies server, db`catalog, db`fates
      ensures (Stores(server.api, server.fates, db.catalog, db.fates), verdict)
           == PublicationRun(old(Stores(server.api, server.fates, db.catalog, db.fates)), key, cached, connects,
                             db.conforming, db.aivenOnEmpty)
    {
      if cached.None? {
        return Finished;
      }
      if !connects {
        return Requeued;
      }
      var publication := cached.value;
      var manager := ManagerFor(publication.body.spec.ref.variant);
      if manager.None? {
        return Requeued;
      }
      var stop, failed, updated := HandleFinalizers(key, manager.value, publication);
      if failed {
        return Errored;
      }
      if stop {
        return Finished;
      }
      var ok := PublicationManager.Reconcile(manager.value, updated.body.spec.publication);
      return if ok then Finished else Requeued;
    }
  }
}
