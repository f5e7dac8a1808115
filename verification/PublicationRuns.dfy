/**
 The reconcile of the publication controller, as carried out by the method PublicationReconciler.Reconcile
 under any faults and any cache answer, is a run of the protocol machine; so what is proved about all runs
 of the machine is true of the code. Undisturbed, it has one outcome; and under any faults it is said what
 its verdict means and exactly when it is given.
 */
module PublicationRuns {
  import opened Wrappers
  import opened SqlGrammar
  import opened Postgres
  import opened PublicationManager
  import opened PublicationRefinement
  import opened Kube
  import opened PublicationProtocol
  import opened PublicationController

  /** The update that takes the finalizer away, as the machine's last step. */
  function LastStep(st: Stores): Step {
    if Next(st.apiFates) == Lost then Stop else Release
  }

  function FinalizerSteps(st: Stores, o: Obj): seq<Step> {
    if !o.body.deleting then
      if Has(o) || Next(st.apiFates) == Delivered then [AddFinalizer]
      else if Next(st.apiFates) == Lost then [Stop]
      else [AddFinalizer, Stop]
    else if !Has(o) || Next(st.dbFates) == Lost then [Stop]
    else if Next(st.dbFates) == Unanswered then [Drop, Stop]
    else if Find(st.catalog.publications, NameOf(o.body.spec.publication)).None? then [Drop]
    else [Drop, LastStep(st)]
  }

  /** The same for an object that names another publication. */
  function OtherSteps(st: Stores, key: string, o: Obj): seq<Step> {
    if !o.body.deleting then FinalizerSteps(st, o) + (if FinalizersRun(st, key, o).failed then [] else [Stop])
    else if !Has(o) || !DropRun(st, o.body.spec.publication).1 then [Stop]
    else [DropOther, LastStep(st)]
  }

  function OursSteps(st: Stores, key: string, o: Obj, conforming: bool, onEmpty: Option<Scope>): seq<Step> {
    var h := FinalizersRun(st, key, o);
    FinalizerSteps(st, o) +
    if h.failed || h.stop then []
    else ReconcileSteps(h.st.catalog, h.st.dbFates, h.o.body.spec.publication,
                        o.body.spec.ref.variant == VARIANT_AIVEN, conforming, onEmpty)
  }

  function AnySteps(st: Stores, key: string, name: string, o: Obj, conforming: bool,
                    onEmpty: Option<Scope>): seq<Step> {
    if Names(o) == name then OursSteps(st, key, o, conforming, onEmpty) else OtherSteps(st, key, o)
  }

  /** The steps of the machine for the publication `name` that make up a reconcile. */
  function Steps(st: Stores, index: nat, cached: Option<Obj>, key: string, name: string,
                 connects: bool, conforming: bool, onEmpty: Option<Scope>): seq<Step>
  {
    if cached.None? then [PublicationProtocol.Read(index)]
    else if !connects || !KnownVariant(cached.value.body.spec.ref.variant) then [PublicationProtocol.Read(index), Stop]
    else
      [PublicationProtocol.Read(index)] + AnySteps(st, key, name, cached.value, conforming, onEmpty)
  }

  /** An update that reaches the API server, in the machine and in the store. */
  lemma UpdateServed(s: Slot, st: Stores, key: string, name: string, update: Obj)
    requires Agrees(s, key, name, st.api, st.catalog) && Next(st.apiFates) != Lost
    ensures var (after, ok, _) := UpdateRun(st, key, update);
            var (o, accepted) := UpdateAt(Latest(s), s.clock, update);
            && Agrees(Stored(s, o), key, name, after.api, after.catalog)
            && (ok <==> accepted && Next(st.apiFates) == Delivered)
            && after.catalog == st.catalog && after.dbFates == st.dbFates
            && Put(after.api.objs, key, None) == Put(st.api.objs, key, None)
  {
  }

  lemma NoUpdate(st: Stores, key: string, update: Obj)
    requires Next(st.apiFates) == Lost
    ensures var (after, ok, _) := UpdateRun(st, key, update);
            after.api == st.api && !ok && after.catalog == st.catalog && after.dbFates == st.dbFates
  {
  }

  lemma AddingIsSteps(s: Slot, st: Stores, key: string, name: string, o: Obj)
    requires s.worker == Fetched(o) && Agrees(s, key, name, st.api, st.catalog) && !o.body.deleting
    ensures var h, t := FinalizersRun(st, key, o), Run(s, FinalizerSteps(st, o));
            && Agrees(t, key, name, h.st.api, h.st.catalog)
            && t.worker == (if h.stop || h.failed then Idle else Ready(h.o))
            && h.st.catalog == st.catalog && h.st.dbFates == st.dbFates && h.o.body.spec == o.body.spec
            && Put(h.st.api.objs, key, None) == Put(st.api.objs, key, None)
  {
    RunOne(s, AddFinalizer);
    RunOne(s, Stop);
    RunTwo(s, AddFinalizer, Stop);
    if !Has(o) {
      if Next(st.apiFates) == Lost {
        NoUpdate(st, key, WithFinalizer(o));
      } else {
        UpdateServed(s, st, key, name, WithFinalizer(o));
      }
    }
  }

  lemma ReleaseServed(t: Slot, st: Stores, key: string, name: string, o: Obj)
    requires t.worker == Dropped(o) && Agrees(t, key, name, st.api, st.catalog)
    ensures var (released, _, _) := UpdateRun(st, key, WithoutFinalizer(o));
            var u := Do(t, LastStep(st));
            && Agrees(u, key, name, released.api, released.catalog) && u.worker == Idle && u.entry == t.entry
            && released.catalog == st.catalog
            && Put(released.api.objs, key, None) == Put(st.api.objs, key, None)
  {
    if Next(st.apiFates) == Lost {
      NoUpdate(st, key, WithoutFinalizer(o));
    } else {
      UpdateServed(t, st, key, name, WithoutFinalizer(o));
    }
  }

  /** The DROP, as far as it comes. */
  lemma DropServed(s: Slot, st: Stores, key: string, o: Obj)
    requires s.worker == Fetched(o) && Agrees(s, key, Names(o), st.api, st.catalog) && o.body.deleting && Has(o)
    ensures var (dropped, ok) := DropRun(st, o.body.spec.publication);
            var t := if Next(st.dbFates) == Lost then s else Do(s, Drop);
            && dropped.api == st.api && dropped.apiFates == st.apiFates
            && dropped.catalog == WithEntry(st.catalog, Names(o), t.entry)
            && Agrees(t, key, Names(o), dropped.api, dropped.catalog)
            && (ok ==> t.worker == Dropped(o))
            && (ok <==> Next(st.dbFates) == Delivered && Find(st.catalog.publications, Names(o)).Some?)
            && (Next(st.dbFates) == Delivered && !ok ==> t.worker == Idle)
  {
    PutSame(st.catalog.publications, Names(o));
    StatementOnEntry(st.catalog, Next(st.dbFates), DropPublication(Names(o)));
  }

  lemma RemovingIsSteps(s: Slot, st: Stores, key: string, o: Obj)
    requires s.worker == Fetched(o) && Agrees(s, key, Names(o), st.api, st.catalog) && o.body.deleting
    ensures var name, h, t := Names(o), FinalizersRun(st, key, o), Run(s, FinalizerSteps(st, o));
            && Agrees(t, key, name, h.st.api, h.st.catalog)
            && t.worker == Idle && (h.stop || h.failed)
            && h.st.catalog == WithEntry(st.catalog, name, t.entry)
            && Put(h.st.api.objs, key, None) == Put(st.api.objs, key, None)
  {
    RunOne(s, Stop);
    if !Has(o) {
      PutSame(st.catalog.publications, Names(o));
    } else {
      DropServed(s, st, key, o);
      var (dropped, ok) := DropRun(st, o.body.spec.publication);
      if ok {
        RunTwo(s, Drop, LastStep(st));
        ReleaseServed(Do(s, Drop), dropped, key, Names(o), o);
      } else {
        RunOne(s, Drop);
        RunTwo(s, Drop, Stop);
      }
    }
  }

  lemma StepsAreOwn(st: Stores, o: Obj)
    ensures OwnSteps(FinalizerSteps(st, o))
  {
  }

  lemma OwnStepsConcat(a: seq<Step>, b: seq<Step>)
    requires OwnSteps(a) && OwnSteps(b)
    ensures OwnSteps(a + b)
  {
  }

  /** From Ready on. */
  lemma ReadyIsARun(s: Slot, first: seq<Step>, h: Handled, key: string, name: string,
                    aiven: bool, conforming: bool, onEmpty: Option<Scope>)
    requires s.history != [] && OwnSteps(first)
    requires Run(s, first).worker == Ready(h.o) && Agrees(Run(s, first), key, name, h.st.api, h.st.catalog)
    requires name == Names(h.o)
    ensures var p := h.o.body.spec.publication;
            var steps := first + ReconcileSteps(h.st.catalog, h.st.dbFates, p, aiven, conforming, onEmpty);
            var after := ReconcileRun(h.st.catalog, h.st.dbFates, p, aiven, conforming, onEmpty).0;
            var t := Run(s, steps);
            && OwnSteps(steps)
            && Agrees(t, key, name, h.st.api, after) && t.worker == Idle
            && after == WithEntry(h.st.catalog, name, t.entry)
  {
    var p, ready := h.o.body.spec.publication, Run(s, first);
    var second := ReconcileSteps(h.st.catalog, h.st.dbFates, p, aiven, conforming, onEmpty);
    ReadyAlone(ready, h, key, name, aiven, conforming, onEmpty);
    RunAppends(s, first, second);
    OwnStepsConcat(first, second);
  }

  lemma ReadyAlone(s: Slot, h: Handled, key: string, name: string, aiven: bool, conforming: bool,
                   onEmpty: Option<Scope>)
    requires s.worker == Ready(h.o) && Agrees(s, key, name, h.st.api, h.st.catalog) && name == Names(h.o)
    ensures var p := h.o.body.spec.publication;
            var steps := ReconcileSteps(h.st.catalog, h.st.dbFates, p, aiven, conforming, onEmpty);
            var after := ReconcileRun(h.st.catalog, h.st.dbFates, p, aiven, conforming, onEmpty).0;
            var t := Run(s, steps);
            && OwnSteps(steps)
            && Agrees(t, key, name, h.st.api, after) && t.worker == Idle
            && after == WithEntry(h.st.catalog, name, t.entry)
  {
    ReconcileStepsRun(s, h.st.catalog, h.st.dbFates, h.o.body.spec.publication, aiven, conforming, onEmpty);
  }

  /** From Fetched on, for an object that names the publication. */
  lemma FetchedIsARun(s: Slot, st: Stores, key: string, name: string, o: Obj, conforming: bool, onEmpty: Option<Scope>)
    requires s.worker == Fetched(o) && Agrees(s, key, name, st.api, st.catalog) && name == Names(o)
    requires KnownVariant(o.body.spec.ref.variant)
    ensures var after := PublicationRun(st, key, Some(o), true, conforming, onEmpty).0;
            var steps := OursSteps(st, key, o, conforming, onEmpty);
            var t := Run(s, steps);
            && OwnSteps(steps)
            && Agrees(t, key, name, after.api, after.catalog) && t.worker == Idle
            && after.catalog == WithEntry(st.catalog, name, t.entry)
            && Put(after.api.objs, key, None) == Put(st.api.objs, key, None)
  {
    var h, first := FinalizersRun(st, key, o), FinalizerSteps(st, o);
    PutSame(st.catalog.publications, name);
    StepsAreOwn(st, o);
    if o.body.deleting {
      RemovingIsSteps(s, st, key, o);
      assert first + [] == first;
    } else {
      AddingIsSteps(s, st, key, name, o);
      if h.failed || h.stop {
        assert first + [] == first;
      } else {
        ReadyIsARun(s, first, h, key, name, o.body.spec.ref.variant == VARIANT_AIVEN, conforming, onEmpty);
      }
    }
  }

  /** The same for an object that names another publication: the entry of this one is not touched. */
  lemma OtherReconciled(t: Slot, st: Stores, key: string, name: string, h: Handled, aiven: bool, conforming: bool,
                        onEmpty: Option<Scope>)
    requires Agrees(t, key, name, h.st.api, h.st.catalog) && name != Names(h.o)
    ensures var after :=
            ReconcileRun(h.st.catalog, h.st.dbFates, h.o.body.spec.publication, aiven, conforming, onEmpty).0;
            && Agrees(Do(t, Stop), key, name, h.st.api, after)
            && after == WithEntry(h.st.catalog, Names(h.o), Find(after.publications, Names(h.o)))
  {
    ReconcileTouchesOne(h.st.catalog, h.st.dbFates, h.o.body.spec.publication, aiven, conforming, onEmpty);
  }

  lemma OtherAddingIsARun(s: Slot, st: Stores, key: string, name: string, o: Obj, conforming: bool,
                          onEmpty: Option<Scope>)
    requires s.worker == Fetched(o) && Agrees(s, key, name, st.api, st.catalog) && name != Names(o)
    requires KnownVariant(o.body.spec.ref.variant) && !o.body.deleting
    ensures var after := PublicationRun(st, key, Some(o), true, conforming, onEmpty).0;
            var steps := OtherSteps(st, key, o);
            var t := Run(s, steps);
            && OwnSteps(steps)
            && Agrees(t, key, name, after.api, after.catalog) && t.worker == Idle
            && after.catalog == WithEntry(st.catalog, Names(o), Find(after.catalog.publications, Names(o)))
            && Put(after.api.objs, key, None) == Put(st.api.objs, key, None)
  {
    var h, first := FinalizersRun(st, key, o), FinalizerSteps(st, o);
    StepsAreOwn(st, o);
    AddingIsSteps(s, st, key, name, o);
    if h.failed {
      PutSame(st.catalog.publications, Names(o));
      assert first + [] == first;
    } else {
      var t := Run(s, first);
      RunAppends(s, first, [Stop]);
      RunOne(t, Stop);
      OwnStepsConcat(first, [Stop]);
      OtherReconciled(t, st, key, name, h, o.body.spec.ref.variant == VARIANT_AIVEN, conforming, onEmpty);
    }
  }

  lemma DropOtherServed(s: Slot, st: Stores, key: string, name: string, o: Obj)
    requires s.worker == Fetched(o) && Agrees(s, key, name, st.api, st.catalog) && name != Names(o)
    requires o.body.deleting && Has(o)
    ensures var (dropped, ok) := DropRun(st, o.body.spec.publication);
            && dropped.api == st.api && dropped.apiFates == st.apiFates
            && dropped.catalog == WithEntry(st.catalog, Names(o), Find(dropped.catalog.publications, Names(o)))
            && Agrees(s, key, name, dropped.api, dropped.catalog)
            && Agrees(Do(s, DropOther), key, name, dropped.api, dropped.catalog)
            && Do(s, DropOther).worker == Dropped(o)
  {
    PutSame(st.catalog.publications, Names(o));
    StatementOnEntry(st.catalog, Next(st.dbFates), DropPublication(Names(o)));
  }

  lemma OtherRemovingIsARun(s: Slot, st: Stores, key: string, name: string, o: Obj)
    requires s.worker == Fetched(o) && Agrees(s, key, name, st.api, st.catalog) && name != Names(o) && o.body.deleting
    ensures var h, steps := FinalizersRun(st, key, o), OtherSteps(st, key, o);
            var t := Run(s, steps);
            && (h.stop || h.failed) && OwnSteps(steps)
            && Agrees(t, key, name, h.st.api, h.st.catalog) && t.worker == Idle
            && h.st.catalog == WithEntry(st.catalog, Names(o), Find(h.st.catalog.publications, Names(o)))
            && Put(h.st.api.objs, key, None) == Put(st.api.objs, key, None)
  {
    var (dropped, ok) := DropRun(st, o.body.spec.publication);
    if !Has(o) {
      PutSame(st.catalog.publications, Names(o));
      RunOne(s, Stop);
    } else {
      DropOtherServed(s, st, key, name, o);
      if ok {
        RunTwo(s, DropOther, LastStep(st));
        ReleaseServed(Do(s, DropOther), dropped, key, name, o);
      } else {
        RunOne(s, Stop);
      }
    }
  }

  lemma OtherIsARun(s: Slot, st: Stores, key: string, name: string, o: Obj, conforming: bool, onEmpty: Option<Scope>)
    requires s.worker == Fetched(o) && Agrees(s, key, name, st.api, st.catalog) && name != Names(o)
    requires KnownVariant(o.body.spec.ref.variant)
    ensures var after := PublicationRun(st, key, Some(o), true, conforming, onEmpty).0;
            var steps := OtherSteps(st, key, o);
            var t := Run(s, steps);
            && OwnSteps(steps)
            && Agrees(t, key, name, after.api, after.catalog) && t.worker == Idle
            && after.catalog == WithEntry(st.catalog, Names(o), Find(after.catalog.publications, Names(o)))
            && Put(after.api.objs, key, None) == Put(st.api.objs, key, None)
  {
    if o.body.deleting {
      OtherRemovingIsARun(s, st, key, name, o);
    } else {
      OtherAddingIsARun(s, st, key, name, o, conforming, onEmpty);
    }
  }

  /**
   The steps are the controller's own, and run from `s` they end, with the controller idle, where the stores
   end; no other object and no publication but the subject is touched.
   */
  ghost predicate IsRun(s: Slot, st: Stores, key: string, name: string, steps: seq<Step>, after: Stores,
                        subject: string)
    requires s.history != []
  {
    var t := Run(s, steps);
    && OwnSteps(steps)
    && Agrees(t, key, name, after.api, after.catalog) && t.worker == Idle
    && after.catalog == WithEntry(st.catalog, subject, Find(after.catalog.publications, subject))
    && Put(after.api.objs, key, None) == Put(st.api.objs, key, None)
  }

  lemma AnyIsARun(s: Slot, st: Stores, key: string, name: string, o: Obj, conforming: bool, onEmpty: Option<Scope>)
    requires s.worker == Fetched(o) && Agrees(s, key, name, st.api, st.catalog)
    requires KnownVariant(o.body.spec.ref.variant)
    ensures var after := PublicationRun(st, key, Some(o), true, conforming, onEmpty).0;
            var steps := AnySteps(st, key, name, o, conforming, onEmpty);
            IsRun(s, st, key, name, steps, after, Names(o))
  {
    if Names(o) == name {
      FetchedIsARun(s, st, key, name, o, conforming, onEmpty);
    } else {
      OtherIsARun(s, st, key, name, o, conforming, onEmpty);
    }
  }

  /** The publication a reconcile is about: the one the cached object names. */
  function Subject(cached: Option<Obj>, name: string): string {
    if cached.None? then name else Names(cached.value)
  }

  lemma QuitIsARun(s: Slot, st: Stores, key: string, name: string, index: nat)
    requires Agrees(s, key, name, st.api, st.catalog) && s.worker == Idle && s.seen <= index < |s.history|
    ensures var read, cached := PublicationProtocol.Read(index), s.history[index];
            if cached.None? then IsRun(s, st, key, name, [read], st, name)
            else IsRun(s, st, key, name, [read, Stop], st, Names(cached.value))
  {
    PutSame(st.catalog.publications, Subject(s.history[index], name));
    RunOne(s, PublicationProtocol.Read(index));
    RunTwo(s, PublicationProtocol.Read(index), Stop);
  }

  /**
   Every reconcile, whatever the cache answers and whatever fails, is a run of the machine made of the
   controller's own steps. It touches no other object and no publication but the one the object names.
   */
  lemma ReconcileIsARun(s: Slot, st: Stores, key: string, name: string, index: nat,
                        connects: bool, conforming: bool, onEmpty: Option<Scope>)
    requires Agrees(s, key, name, st.api, st.catalog) && s.worker == Idle && s.seen <= index < |s.history|
    ensures IsRun(s, st, key, name,
                  Steps(st, index, s.history[index], key, name, connects, conforming, onEmpty),
                  PublicationRun(st, key, s.history[index], connects, conforming, onEmpty).0,
                  Subject(s.history[index], name))
  {
    var cached := s.history[index];
    if cached.None? || !connects || !KnownVariant(cached.value.body.spec.ref.variant) {
      QuitIsARun(s, st, key, name, index);
    } else {
      KnownIsARun(s, st, key, name, index, conforming, onEmpty);
    }
  }

  lemma KnownIsARun(s: Slot, st: Stores, key: string, name: string, index: nat, conforming: bool,
                    onEmpty: Option<Scope>)
    requires Agrees(s, key, name, st.api, st.catalog) && s.worker == Idle && s.seen <= index < |s.history|
    requires s.history[index].Some? && KnownVariant(s.history[index].value.body.spec.ref.variant)
    ensures var o := s.history[index].value;
            var steps := Steps(st, index, Some(o), key, name, true, conforming, onEmpty);
            var after := PublicationRun(st, key, Some(o), true, conforming, onEmpty).0;
            IsRun(s, st, key, name, steps, after, Names(o))
  {
    var o := s.history[index].value;
    var t := Do(s, PublicationProtocol.Read(index));
    assert t.worker == Fetched(o) && Agrees(t, key, name, st.api, st.catalog);
    AnyIsARun(t, st, key, name, o, conforming, onEmpty);
    ReadThen(s, index, AnySteps(st, key, name, o, conforming, onEmpty));
  }

  lemma ReadThen(s: Slot, index: nat, steps: seq<Step>)
    requires s.history != [] && OwnSteps(steps)
    ensures Run(s, [PublicationProtocol.Read(index)] + steps) == Run(Do(s, PublicationProtocol.Read(index)), steps)
    ensures OwnSteps([PublicationProtocol.Read(index)] + steps)
  {
    RunFirst(s, PublicationProtocol.Read(index), steps);
    OwnStepsConcat([PublicationProtocol.Read(index)], steps);
  }

  lemma MakerIsHeld(t: Slot, key: string, name: string, api: Api, c: Catalog)
    requires Inv(t) && Agrees(t, key, name, api, c) && t.maker.Some?
    ensures name in c.publications && key in api.objs && api.objs[key].uid == t.maker.value
    ensures Names(api.objs[key]) == name && Has(api.objs[key])
  {
    assert Latest(t) == t.history[|t.history| - 1];
  }

  /** Hence no reconcile, however it goes, orphans a publication the controller created. */
  lemma ReconcileKeepsNoOrphans(s: Slot, st: Stores, key: string, name: string, index: nat,
                                connects: bool, conforming: bool, onEmpty: Option<Scope>)
    requires Inv(s) && Agrees(s, key, name, st.api, st.catalog) && s.worker == Idle && s.seen <= index < |s.history|
    ensures var t := Run(s, Steps(st, index, s.history[index], key, name, connects, conforming, onEmpty));
            var after := PublicationRun(st, key, s.history[index], connects, conforming, onEmpty).0;
            && Inv(t)
            && (t.maker.Some? ==>
                  && name in after.catalog.publications && key in after.api.objs
                  && after.api.objs[key].uid == t.maker.value
                  && Names(after.api.objs[key]) == name && Has(after.api.objs[key]))
  {
    ReconcileIsARun(s, st, key, name, index, connects, conforming, onEmpty);
    var steps := Steps(st, index, s.history[index], key, name, connects, conforming, onEmpty);
    var after := PublicationRun(st, key, s.history[index], connects, conforming, onEmpty).0;
    RunKeeps(s, steps);
    if Run(s, steps).maker.Some? {
      MakerIsHeld(Run(s, steps), key, name, after.api, after.catalog);
    }
  }

  // ---------------------------------------------------------------------------------------------------
  // Undisturbed
  // ---------------------------------------------------------------------------------------------------

  lemma BodiesPut(api: Api, key: string, o: Option<Obj>)
    ensures BodiesOf(WithObject(api, key, o)) == Put(BodiesOf(api), key, if o.None? then None else Some(o.value.body))
  {
  }

  /** An up-to-date object and no faults: the outcome is Settle's. */
  lemma UndisturbedReconcile(st: Stores, key: string, conforming: bool, onEmpty: Option<Scope>)
    requires AllDelivered(st.apiFates) && AllDelivered(st.dbFates)
    ensures var after := PublicationRun(st, key, Find(st.api.objs, key), true, conforming, onEmpty).0;
            World(BodiesOf(after.api), after.catalog)
              == Settle(World(BodiesOf(st.api), st.catalog), key, conforming, onEmpty)
  {
    var w := World(BodiesOf(st.api), st.catalog);
    if key in st.api.objs && KnownVariant(st.api.objs[key].body.spec.ref.variant) {
      var o := st.api.objs[key];
      var p := o.body.spec.publication;
      if o.body.deleting {
        if Has(o) {
          StatementOnEntry(st.catalog, Next(st.dbFates), DropPublication(NameOf(p)));
          PutSame(st.catalog.publications, NameOf(p));
          var (dropped, ok) := DropRun(st, p);
          assert WithoutFinalizer(o).body.finalizers != o.body.finalizers;
          BodiesPut(dropped.api, key, UpdateAt(Some(o), st.api.clock, WithoutFinalizer(o)).0);
        }
      } else {
        FaultFreeScripts(st.catalog, st.dbFates, p, o.body.spec.ref.variant == VARIANT_AIVEN, conforming, onEmpty);
        if Has(o) {
          assert w.bodies[key := o.body] == w.bodies;
        } else {
          WithFinalizerHas(o);
          BodiesPut(st.api, key, UpdateAt(Some(o), st.api.clock, WithFinalizer(o)).0);
        }
      }
    }
  }

  // ---------------------------------------------------------------------------------------------------
  // What the verdict means
  // ---------------------------------------------------------------------------------------------------

  /** The store holds the object in the version that the cache showed, and the next update gets through. */
  predicate Updates(st: Stores, key: string, o: Obj) {
    && key in st.api.objs && st.api.objs[key].uid == o.uid && st.api.objs[key].version == o.version
    && Next(st.apiFates) == Delivered
  }

  /** Nothing fails on the way to the finalizer, or to its end. */
  predicate Prepared(st: Stores, key: string, o: Obj) {
    if !o.body.deleting then Has(o) || Updates(st, key, o)
    else Has(o) ==>
           Names(o) in st.catalog.publications && Next(st.dbFates) == Delivered && Updates(st, key, o)
  }

  /** What is left to do after that, which is nothing for a marked object, can be done and gets done. */
  predicate Completed(st: Stores, o: Obj, conforming: bool, onEmpty: Option<Scope>) {
    var p, aiven := o.body.spec.publication, o.body.spec.ref.variant == VARIANT_AIVEN;
    o.body.deleting ||
    (Attainable(st.catalog, p, aiven, conforming, onEmpty) && DeliveredUpTo(st.dbFates, CallsNeeded(st.catalog, p)))
  }

  lemma PreparedExactly(st: Stores, key: string, o: Obj)
    ensures var h := FinalizersRun(st, key, o);
            && (h.failed <==> !Prepared(st, key, o))
            && (h.stop ==> o.body.deleting)
            && (!h.failed && o.body.deleting ==> h.stop)
            && (!o.body.deleting ==> h.st.catalog == st.catalog && h.st.dbFates == st.dbFates)
            && h.o.body.spec == o.body.spec
  {
    if o.body.deleting && Has(o) {
      StatementOnEntry(st.catalog, Next(st.dbFates), DropPublication(Names(o)));
    }
  }

  /**
   Whatever the cache answers and whatever fails: the reconcile says that it is finished if and only if
   there is no object, or the database can be reached, the variant is known and every call that was needed
   succeeded. It ends with an error if and only if the finalizer could not be dealt with.
   */
  lemma VerdictExactly(st: Stores, key: string, cached: Option<Obj>, connects: bool, conforming: bool,
                       onEmpty: Option<Scope>)
    ensures var verdict := PublicationRun(st, key, cached, connects, conforming, onEmpty).1;
            if cached.None? then verdict == Finished
            else
              var o := cached.value;
              var begun := connects && o.body.spec.ref.variant in {"", "standard", "aiven"};
              && (verdict == Finished <==> begun && Prepared(st, key, o) && Completed(st, o, conforming, onEmpty))
              && (verdict == Errored <==> begun && !Prepared(st, key, o))
  {
    if cached.Some? && connects && KnownVariant(cached.value.body.spec.ref.variant) {
      var o := cached.value;
      var h := FinalizersRun(st, key, o);
      PreparedExactly(st, key, o);
      Attains(h.st.catalog, h.st.dbFates, h.o.body.spec.publication, o.body.spec.ref.variant == VARIANT_AIVEN,
              conforming, onEmpty);
    }
  }

  /** After a successful update the object is as it was sent; it can only be gone if it was sent without finalizers. */
  lemma UpdatedIs(st: Stores, key: string, update: Obj)
    ensures var (after, ok, _) := UpdateRun(st, key, update);
            ok ==>
              && (update.body.finalizers != [] ==> key in after.api.objs)
              && (key in after.api.objs ==>
                    && after.api.objs[key].uid == update.uid
                    && after.api.objs[key].body.finalizers == update.body.finalizers)
  {
  }

  /**
   And what it then leaves. Of an object that is not marked: the publication it asks for, and, where the
   finalizer was missing, an object that holds it. Of one that is marked and holds the finalizer: no
   publication, and no object with the finalizer. Of one that is marked and does not: everything as it was.
   */
  lemma FinishedMeansDone(st: Stores, key: string, o: Obj, connects: bool, conforming: bool, onEmpty: Option<Scope>)
    requires PublicationRun(st, key, Some(o), connects, conforming, onEmpty).1 == Finished
    ensures var after := PublicationRun(st, key, Some(o), connects, conforming, onEmpty).0;
            var p, aiven := o.body.spec.publication, o.body.spec.ref.variant == VARIANT_AIVEN;
            if !o.body.deleting then
              && (Has(o) ==> after.api == st.api)
              && (!Has(o) ==> key in after.api.objs && after.api.objs[key].uid == o.uid && Has(after.api.objs[key]))
              && PublishSet(PublishOf(p)).Some? && Attained(p, aiven, onEmpty).Some?
              && after.catalog == WithEntry(st.catalog, Names(o), Attained(p, aiven, onEmpty))
              && ((aiven ==> p.tables != []) ==> Find(after.catalog.publications, Names(o)) == Some(Wanted(p)))
            else if Has(o) then
              && Names(o) in st.catalog.publications
              && after.catalog == WithEntry(st.catalog, Names(o), None)
              && (key in after.api.objs ==> !Has(after.api.objs[key]) && after.api.objs[key].uid == o.uid)
            else after == st
  {
    var h := FinalizersRun(st, key, o);
    PreparedExactly(st, key, o);
    if !o.body.deleting {
      UpdatedIs(st, key, WithFinalizer(o));
      Attains(h.st.catalog, h.st.dbFates, h.o.body.spec.publication, o.body.spec.ref.variant == VARIANT_AIVEN,
              conforming, onEmpty);
    } else if Has(o) {
      StatementOnEntry(st.catalog, Next(st.dbFates), DropPublication(Names(o)));
      UpdatedIs(DropRun(st, o.body.spec.publication).0, key, WithoutFinalizer(o));
    }
  }

  /** An up-to-date object and no faults: finished exactly when there is nothing in the way. */
  lemma UndisturbedVerdict(st: Stores, key: string, connects: bool, conforming: bool, onEmpty: Option<Scope>)
    requires AllDelivered(st.apiFates) && AllDelivered(st.dbFates)
    ensures var verdict := PublicationRun(st, key, Find(st.api.objs, key), connects, conforming, onEmpty).1;
            verdict == Finished <==>
            key !in st.api.objs ||
            (var o := st.api.objs[key];
             var variant := o.body.spec.ref.variant;
             && connects && variant in {"", "standard", "aiven"}
             && if o.body.deleting then Has(o) ==> Names(o) in st.catalog.publications
                else Attainable(st.catalog, o.body.spec.publication, variant == "aiven", conforming, onEmpty))
  {
    VerdictExactly(st, key, Find(st.api.objs, key), connects, conforming, onEmpty);
  }
}
