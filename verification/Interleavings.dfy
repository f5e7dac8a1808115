/**
 From single calls to convergence. As long as both controllers' calls interleave gently, in the sense of
 PublicationLiveness, every state in which no reconcile is under way is one from which three undisturbed
 rounds converge. Undisturbed reconciles are gentle, and so are the config controller's runs wherever they do
 not fall between a DROP and the release (ConfigSteps.ConfigRunIsEdits).
 */
module Interleavings {
  import opened Wrappers
  import opened SqlText
  import opened Specs
  import opened SqlGrammar
  import opened Postgres
  import opened PublicationRefinement
  import opened Kube
  import opened PublicationProtocol
  import opened PublicationSafety
  import opened PublicationLiveness
  import opened PublicationController
  import opened PublicationRuns
  import opened ConfigDiff
  import opened ConfigOutcome
  import opened Convergence
  import opened Executions

  /** The machine shows what there is under one publication name. */
  predicate Mirrors(s: Slot, w: World, cfg: Config, n: string) {
    && s.history != []
    && s.name == Strip(n)
    && PlaceOf(w, cfg, n) == Place(BodyOf(Latest(s)), s.entry)
  }

  lemma SmoothIsBacked(s: Slot, w: World, cfg: Config, n: string)
    requires Smooth(s) && s.worker == Idle && Mirrors(s, w, cfg, n) && PlaceSound(cfg, n, PlaceOf(w, cfg, n))
    ensures Backed(cfg, n, PlaceOf(w, cfg, n))
  {
  }

  lemma InitialSmooth(s: Slot)
    requires Initial(s)
    ensures Smooth(s)
  {
    InitialInv(s);
  }

  /** All machines have run gently, by single interleaved calls, and no reconcile is under way. */
  predicate ComeToRest(f: Fleet, events: seq<Event>, w: World, cfg: Config, names: set<string>) {
    && FleetStarts(f)
    && forall n :: n in names ==> AtRest(f, events, w, cfg, n)
  }

  predicate AtRest(f: Fleet, events: seq<Event>, w: World, cfg: Config, n: string)
    requires FleetStarts(f)
  {
    var key := ResourceName(cfg.name, n);
    && key in f
    && GentleRun(f[key], StepsOf(events, key))
    && Happen(f, events)[key].worker == Idle
    && Mirrors(Happen(f, events)[key], w, cfg, n)
  }

  /** Such a state is a good one, if what is asked for can be made at all. */
  lemma RestIsGood(f: Fleet, events: seq<Event>, w: World, cfg: Config, names: set<string>)
    requires ComeToRest(f, events, w, cfg, names) && Sound(w, cfg, names)
    requires forall n :: n in names ==> Feasible(cfg, w.catalog.tables.Keys, n, PlaceOf(w, cfg, n))
    ensures Good(w, cfg, names)
  {
    forall n | n in names
      ensures HealthyAt(w, cfg, n)
    {
      var key := ResourceName(cfg.name, n);
      assert AtRest(f, events, w, cfg, n);
      HappenIsRun(f, events, key);
      InitialSmooth(f[key]);
      GentleRunKeeps(f[key], StepsOf(events, key));
      assert PlaceSound(cfg, n, PlaceOf(w, cfg, n));
      SmoothIsBacked(Happen(f, events)[key], w, cfg, n);
    }
  }

  /**
   Whatever gentle interleaving of single calls came before, three rounds of reconciles that do not overlap
   end with owned specs and catalog as the config asks.
   */
  lemma InterleavingsConverge(f: Fleet, events: seq<Event>, states: seq<System>, visits: seq<Visit>,
                              cfg: Config, names: set<string>, onEmpty: Option<Scope>,
                              first: seq<Action>, second: seq<Action>, third: seq<Action>, rest: seq<Action>)
    requires IsExecution(states, visits, cfg, onEmpty)
    requires ComeToRest(f, events, WorldOf(states[0]), cfg, names) && Sound(WorldOf(states[0]), cfg, names)
    requires forall n :: n in names ==>
               Feasible(cfg, states[0].catalog.tables.Keys, n, PlaceOf(WorldOf(states[0]), cfg, n))
    requires ActionsOf(visits) == first + second + third + rest
    requires IsRound(cfg, names, first) && IsRound(cfg, names, second) && IsRound(cfg, names, third)
    ensures Converged(WorldOf(states[|visits|]), cfg)
    ensures forall n :: n in names && Leaving(cfg, n, PlaceOf(WorldOf(states[0]), cfg, n)) ==>
              && ResourceName(cfg.name, n) !in states[|visits|].api.objs
              && Strip(n) !in states[|visits|].catalog.publications
  {
    RestIsGood(f, events, WorldOf(states[0]), cfg, names);
    ExecutionsConverge(states, visits, cfg, names, onEmpty, first, second, third, rest);
  }

  // ---------------------------------------------------------------------------------------------------
  // Undisturbed reconciles are gentle
  // ---------------------------------------------------------------------------------------------------

  /** What an unmarked object that names the publication asks for can be made, if it has still to be made. */
  predicate Makeable(o: Obj, entry: Option<Entry>, known: set<TableName>) {
    !o.body.deleting && entry.None? ==> Usable(o.body.spec) && Acceptable(o.body.spec.publication, known)
  }

  predicate AltersAndStops(steps: seq<Step>) {
    forall i :: 0 <= i < |steps| ==> steps[i].Alter? || steps[i].Stop?
  }

  lemma {:induction false} AltersAreGentle(s: Slot, steps: seq<Step>)
    requires s.history != [] && (s.worker.Idle? || s.worker.Altering?) && AltersAndStops(steps)
    ensures GentleRun(s, steps)
    decreases |steps|
  {
    if steps != [] {
      AltersAreGentle(Do(s, steps[0]), steps[1..]);
    }
  }

  /** The CREATE of something that can be made, or that exists, does not fail. */
  lemma CreateSucceeds(c: Catalog, o: Obj, onEmpty: Option<Scope>)
    requires Usable(o.body.spec) && !o.body.deleting
    requires Makeable(o, Find(c.publications, Names(o)), c.tables.Keys)
    ensures var p := o.body.spec.publication;
            var request := CreateRequest(p, o.body.spec.ref.variant == VARIANT_AIVEN, onEmpty);
            && request.Some? && request.value.CreatePublication? && request.value.name == NameOf(p)
            && EntryAfter(Find(c.publications, NameOf(p)), c.tables.Keys, request.value).1
               in {None, Some(DuplicateObject)}
  {
    var p := o.body.spec.publication;
    CreateRequestNames(p, o.body.spec.ref.variant == VARIANT_AIVEN, onEmpty);
    OmittedMeansAll(p);
    if o.body.spec.ref.variant == VARIANT_AIVEN {
      AivenCreates(p, onEmpty);
    }
  }

  lemma CreateThenAlters(c: Catalog, p: Publication, aiven: bool, onEmpty: Option<Scope>)
    requires CreateRequest(p, aiven, onEmpty).Some?
    ensures var request, steps :=
            CreateRequest(p, aiven, onEmpty).value, ReconcileSteps(c, [], p, aiven, true, onEmpty);
            steps != [] && steps[0] == Create(request) && AltersAndStops(steps[1..])
  {
  }

  lemma ReadyIsGentle(s: Slot, c: Catalog, o: Obj, onEmpty: Option<Scope>)
    requires s.history != [] && s.worker == Ready(o) && Ours(s) && !o.body.deleting && Usable(o.body.spec)
    requires s.entry == Find(c.publications, s.name) && s.known == c.tables.Keys && Makeable(o, s.entry, s.known)
    ensures GentleRun(s,
          ReconcileSteps(c, [], o.body.spec.publication, o.body.spec.ref.variant == VARIANT_AIVEN, true, onEmpty))
  {
    var p, aiven := o.body.spec.publication, o.body.spec.ref.variant == VARIANT_AIVEN;
    var steps := ReconcileSteps(c, [], p, aiven, true, onEmpty);
    CreateSucceeds(c, o, onEmpty);
    CreateThenAlters(c, p, aiven, onEmpty);
    AltersAreGentle(Do(s, steps[0]), steps[1..]);
  }

  lemma AddingIsGentle(s: Slot, st: Stores, key: string, name: string, o: Obj, onEmpty: Option<Scope>)
    requires s.worker == Fetched(o) && Agrees(s, key, name, st.api, st.catalog) && !o.body.deleting
             && Latest(s) == Some(o)
    requires st.apiFates == [] && st.dbFates == []
    requires name == Names(o) ==> Usable(o.body.spec) && Makeable(o, s.entry, s.known)
    ensures GentleRun(s, AnySteps(st, key, name, o, true, onEmpty))
  {
    var h, first := FinalizersRun(st, key, o), FinalizerSteps(st, o);
    var t := Run(s, first);
    AddingIsSteps(s, st, key, name, o);
    assert first == [AddFinalizer];
    GentleOne(s, AddFinalizer);
    if h.failed {
      assert first + [] == first;
    } else if Names(o) == name {
      AddingKeepsObject(st, key, o);
      ReadyIsGentle(t, st.catalog, h.o, onEmpty);
      GentleAppends(s, first, ReconcileSteps(st.catalog, [], h.o.body.spec.publication,
                                             o.body.spec.ref.variant == VARIANT_AIVEN, true, onEmpty));
    } else {
      GentleOne(t, Stop);
      GentleAppends(s, first, [Stop]);
    }
  }

  lemma AddingKeepsObject(st: Stores, key: string, o: Obj)
    requires Find(st.api.objs, key) == Some(o) && !o.body.deleting && !FinalizersRun(st, key, o).failed
    ensures !FinalizersRun(st, key, o).stop
    ensures FinalizersRun(st, key, o).o.body.spec == o.body.spec && !FinalizersRun(st, key, o).o.body.deleting
  {
  }

  lemma RemovingIsGentle(s: Slot, st: Stores, key: string, name: string, o: Obj, onEmpty: Option<Scope>)
    requires s.worker == Fetched(o) && Agrees(s, key, name, st.api, st.catalog) && o.body.deleting
             && Latest(s) == Some(o)
    requires st.apiFates == [] && st.dbFates == []
    ensures GentleRun(s, AnySteps(st, key, name, o, true, onEmpty))
  {
    if Names(o) == name {
      var first := FinalizerSteps(st, o);
      RemovingIsSteps(s, st, key, o);
      assert OursSteps(st, key, o, true, onEmpty) == first by {
        assert first + [] == first;
      }
      GentleOne(s, first[0]);
      if |first| == 2 {
        GentleOne(Do(s, Drop), Release);
        assert first == [Drop] + [Release];
        RunOne(s, Drop);
        GentleAppends(s, [Drop], [Release]);
      }
    } else {
      var steps := OtherSteps(st, key, o);
      GentleOne(s, steps[0]);
      if |steps| == 2 {
        GentleOne(Do(s, DropOther), Release);
        assert steps == [DropOther] + [Release];
        RunOne(s, DropOther);
        GentleAppends(s, [DropOther], [Release]);
      }
    }
  }

  /** A reconcile of the present object that meets no fault is a gentle run. */
  lemma UndisturbedIsGentle(s: Slot, st: Stores, key: string, name: string, onEmpty: Option<Scope>)
    requires Agrees(s, key, name, st.api, st.catalog) && s.worker == Idle && s.seen < |s.history|
    requires st.apiFates == [] && st.dbFates == []
    requires Latest(s).Some? && Names(Latest(s).value) == name && !Latest(s).value.body.deleting ==>
               Usable(Latest(s).value.body.spec) && Makeable(Latest(s).value, s.entry, s.known)
    ensures GentleRun(s, Steps(st, |s.history| - 1, Latest(s), key, name, true, true, onEmpty))
  {
    var read := PublicationProtocol.Read(|s.history| - 1);
    var t := Do(s, read);
    GentleOne(s, read);
    RunOne(s, read);
    if Latest(s).Some? {
      var o := Latest(s).value;
      if !KnownVariant(o.body.spec.ref.variant) {
        GentleOne(t, Stop);
        assert [read, Stop] == [read] + [Stop];
        GentleAppends(s, [read], [Stop]);
      } else {
        if o.body.deleting {
          RemovingIsGentle(t, st, key, name, o, onEmpty);
        } else {
          AddingIsGentle(t, st, key, name, o, onEmpty);
        }
        GentleAppends(s, [read], AnySteps(st, key, name, o, true, onEmpty));
      }
    }
  }
}
