/**
 The two controllers together: when nothing fails and each reconcile sees the present state, three rounds
 in which everything is reconciled at least once, in any order and any number of times, bring the owned
 objects and the catalog to what the config asks for.

 A whole reconcile is one action here. That is not a simplification that could be dropped:
 PublicationLiveness.ReleasedExactly shows that an update by the config controller between the read of a
 terminating object and the removal of its finalizer leaves a state that nothing leads out of. What call-level
 interleavings do lead to convergence is the subject of the module Interleavings.
 */
module Convergence {
  import opened Wrappers
  import opened SqlText
  import opened Specs
  import opened SqlGrammar
  import opened Postgres
  import opened PublicationSql
  import opened PublicationManager
  import opened PublicationRefinement
  import opened Kube
  import opened PublicationProtocol
  import opened PublicationController
  import opened ConfigDiff

  /** What there is under one publication name: the object and the catalog entry. */
  datatype Place = Place(body: Option<Body>, entry: Option<Entry>)

  function PlaceOf(w: World, cfg: Config, n: string): Place {
    Place(Find(w.bodies, ResourceName(cfg.name, n)), Find(w.catalog.publications, Strip(n)))
  }

  datatype Action = ConfigReconciled | PublicationReconciled(key: string)

  function Act(w: World, cfg: Config, onEmpty: Option<Scope>, a: Action): World {
    match a
    case ConfigReconciled => if CollisionFree(w.bodies, cfg) then w.(bodies := Outcome(w.bodies, cfg)) else w
    case PublicationReconciled(key) => Settle(w, key, true, onEmpty)
  }

  // ---------------------------------------------------------------------------------------------------
  // The boundary of the theorem
  // ---------------------------------------------------------------------------------------------------

  /** Tables are given, the variant is known, and the two managers come to the same thing. */
  predicate Usable(spec: ResourceSpec) {
    && spec.publication.tables != []
    && KnownVariant(spec.ref.variant)
    && (spec.ref.variant == VARIANT_AIVEN ==> Interchangeable(spec.publication, true))
  }

  /** What is asked for can be made, and the names that matter do not collide in either store. */
  predicate GoodConfig(cfg: Config, known: set<TableName>, names: set<string>) {
    && Wants(cfg).Keys <= names
    && (forall n :: n in Wants(cfg) ==> Usable(WantedSpec(cfg, n)) && Acceptable(Wants(cfg)[n], known))
    && (forall m, n :: m in names && n in names && ResourceName(cfg.name, m) == ResourceName(cfg.name, n) ==> m == n)
    && (forall m, n :: m in names && n in names && Strip(m) == Strip(n) ==> m == n)
  }

  /** Owned objects are at the places that matter; others are elsewhere and have other publications. */
  predicate Framed(w: World, cfg: Config, names: set<string>) {
    forall r :: r in w.bodies ==> FramedAt(w.bodies[r], cfg, names, r)
  }

  predicate FramedAt(b: Body, cfg: Config, names: set<string>, r: string) {
    && (Owned(b, cfg.name) ==> PubName(b) in names && r == ResourceName(cfg.name, PubName(b)))
    && (!Owned(b, cfg.name) ==> forall n :: n in names ==>
        r != ResourceName(cfg.name, n) && NameOf(b.spec.publication) != Strip(n))
    && (b.deleting ==> b.finalizers != [])
  }

  /** What holds of an owned object whatever is done to it. It carries no finalizer but the controller's. */
  predicate PlaceSound(cfg: Config, n: string, x: Place) {
    x.body.Some? ==>
      var b := x.body.value;
      && Owned(b, cfg.name) && PubName(b) == n && Usable(b.spec)
      && (b.finalizers == [] || b.finalizers == [FINALIZER])
      && (b.deleting ==> Holds(b))
  }

  /** An object that is marked, or no longer wanted, and holds the finalizer still has its publication. */
  predicate Backed(cfg: Config, n: string, x: Place) {
    x.body.Some? && (x.body.value.deleting || n !in Wants(cfg)) && Holds(x.body.value) ==> x.entry.Some?
  }

  /**
   An unwanted object that the publication controller may yet create a publication for asks for one that can
   be made, and a publication of all tables is not where a publication with tables is wanted.
   */
  predicate Feasible(cfg: Config, known: set<TableName>, n: string, x: Place) {
    && (x.body.Some? && n !in Wants(cfg) && !Holds(x.body.value) && x.entry.None? ==>
          Acceptable(x.body.value.spec.publication, known))
    && (x.entry.Some? && x.entry.value.coverage.Everything? ==>
        n !in Wants(cfg) || (x.body.Some? && x.body.value.deleting))
  }

  predicate Healthy(cfg: Config, known: set<TableName>, n: string, x: Place) {
    Backed(cfg, n, x) && Feasible(cfg, known, n, x)
  }

  /** The side conditions, which nothing the controllers do can break. */
  predicate Sound(w: World, cfg: Config, names: set<string>) {
    && GoodConfig(cfg, w.catalog.tables.Keys, names)
    && Framed(w, cfg, names)
    && forall n :: n in names ==> PlaceSound(cfg, n, PlaceOf(w, cfg, n))
  }

  predicate HealthyAt(w: World, cfg: Config, n: string) {
    Healthy(cfg, w.catalog.tables.Keys, n, PlaceOf(w, cfg, n))
  }

  /** The states that convergence starts from; ConvergenceLimits shows that there are no others. */
  predicate Good(w: World, cfg: Config, names: set<string>) {
    Sound(w, cfg, names) && forall n :: n in names ==> HealthyAt(w, cfg, n)
  }

  /** Valid operation names, tables that exist and names that do not collide make a good config. */
  lemma ValidConfigIsGood(cfg: Config, known: set<TableName>, names: set<string>)
    requires Wants(cfg).Keys <= names
    requires forall n :: n in Wants(cfg) ==>
               && Usable(WantedSpec(cfg, n)) && ValidOperations(Wants(cfg)[n].operations)
               && TableSet(CleanTables(Wants(cfg)[n].tables)) <= known
    requires forall m, n :: m in names && n in names && m != n ==> !AgreeUpToDashes(m, n) && Strip(m) != Strip(n)
    ensures GoodConfig(cfg, known, names)
  {
    forall n | n in Wants(cfg)
      ensures Acceptable(Wants(cfg)[n], known)
    {
      ValidOperationsAreUnderstood(Wants(cfg)[n]);
    }
    forall m, n | m in names && n in names && ResourceName(cfg.name, m) == ResourceName(cfg.name, n)
      ensures m == n
    {
      CollisionsExactly(cfg.name, m, n);
    }
  }

  // ---------------------------------------------------------------------------------------------------
  // The actions at one place
  // ---------------------------------------------------------------------------------------------------

  function Configured(cfg: Config, n: string, x: Place): Place {
    match x.body
    case None => if n in Wants(cfg) then x.(body := Some(NewBody(cfg, Wants(cfg)[n]))) else x
    case Some(b) => x.(body := Treated(cfg, b))
  }

  /** The entry a reconcile ends with when it meets no fault: the second ALTER may be refused, or both. */
  function NextEntry(e: Option<Entry>, known: set<TableName>, p: Publication): Option<Entry> {
    if e.Some? && e.value.coverage.Everything? then e
    else if Acceptable(p, known) then Some(Wanted(p))
    else if e.Some? && TableSet(CleanTables(p.tables)) <= known then Some(Retabled(e.value, p))
    else e
  }

  function Reconciled(known: set<TableName>, x: Place): Place {
    match x.body
    case None => x
    case Some(b) =>
      if b.deleting then (if Holds(b) && x.entry.Some? then Place(None, None) else x)
      else Place(Some(b.(finalizers := [FINALIZER])), NextEntry(x.entry, known, b.spec.publication))
  }

  /** What an action does to a place. */
  function Acted(cfg: Config, known: set<TableName>, n: string, a: Action, x: Place): Place {
    match a
    case ConfigReconciled => Configured(cfg, n, x)
    case PublicationReconciled(key) => if key == ResourceName(cfg.name, n) then Reconciled(known, x) else x
  }

  lemma ListedEntry(c: Catalog, p: Publication, onEmpty: Option<Scope>)
    requires p.tables != [] && NotEverything(c, NameOf(p))
    ensures ReconcileRun(c, [], p, false, true, onEmpty).0
         == WithEntry(c, NameOf(p), NextEntry(Find(c.publications, NameOf(p)), c.tables.Keys, p))
  {
    PutSame(c.publications, NameOf(p));
    CreateEffect(c, p);
    SetTablesEffect(c, p);
    SetPublishEffect(Carried(c, SetTablesOf(p)).0, p);
  }

  lemma StandardEntry(c: Catalog, p: Publication, onEmpty: Option<Scope>)
    requires p.tables != []
    ensures ReconcileRun(c, [], p, false, true, onEmpty).0
         == WithEntry(c, NameOf(p), NextEntry(Find(c.publications, NameOf(p)), c.tables.Keys, p))
  {
    if NotEverything(c, NameOf(p)) {
      ListedEntry(c, p, onEmpty);
    } else {
      PutSame(c.publications, NameOf(p));
      EverythingIsStuck(c, [], p, false, true, onEmpty);
    }
  }

  lemma EntryAfterReconcile(c: Catalog, spec: ResourceSpec, onEmpty: Option<Scope>)
    requires Usable(spec)
    ensures var p := spec.publication;
            ReconcileRun(c, [], p, spec.ref.variant == VARIANT_AIVEN, true, onEmpty).0
            == WithEntry(c, NameOf(p), NextEntry(Find(c.publications, NameOf(p)), c.tables.Keys, p))
  {
    StandardEntry(c, spec.publication, onEmpty);
    if spec.ref.variant == VARIANT_AIVEN {
      AivenAgrees(c, [], spec.publication, true, onEmpty);
    }
  }

  lemma ConfiguredSound(cfg: Config, known: set<TableName>, names: set<string>, n: string, x: Place)
    requires GoodConfig(cfg, known, names) && PlaceSound(cfg, n, x)
    ensures PlaceSound(cfg, n, Configured(cfg, n, x))
    ensures Healthy(cfg, known, n, x) ==> Healthy(cfg, known, n, Configured(cfg, n, x))
  {
    if x.body.None? && n in Wants(cfg) {
      NewBodyOwned(cfg, Wants(cfg)[n]);
    }
  }

  lemma ReconciledSound(cfg: Config, known: set<TableName>, n: string, x: Place)
    requires PlaceSound(cfg, n, x)
    ensures PlaceSound(cfg, n, Reconciled(known, x))
    ensures Healthy(cfg, known, n, x) ==> Healthy(cfg, known, n, Reconciled(known, x))
  {
  }

  lemma ActedSound(cfg: Config, known: set<TableName>, names: set<string>, n: string, a: Action, x: Place)
    requires GoodConfig(cfg, known, names) && PlaceSound(cfg, n, x)
    ensures PlaceSound(cfg, n, Acted(cfg, known, n, a, x))
    ensures Healthy(cfg, known, n, x) ==> Healthy(cfg, known, n, Acted(cfg, known, n, a, x))
  {
    match a
    case ConfigReconciled => ConfiguredSound(cfg, known, names, n, x);
    case PublicationReconciled(_) => ReconciledSound(cfg, known, n, x);
  }

  /** An unwanted publication that is there only as long as an object with the finalizer is. */
  predicate Leaving(cfg: Config, n: string, x: Place) {
    n !in Wants(cfg) && (x.entry.Some? ==> x.body.Some? && Holds(x.body.value))
  }

  lemma LeavingStays(cfg: Config, known: set<TableName>, n: string, a: Action, x: Place)
    requires PlaceSound(cfg, n, x) && Leaving(cfg, n, x)
    ensures Leaving(cfg, n, Acted(cfg, known, n, a, x))
  {
    assert [FINALIZER][0] == FINALIZER;
  }

  // ---------------------------------------------------------------------------------------------------
  // The measure
  // ---------------------------------------------------------------------------------------------------

  /** How many actions a place is away from what the config asks for. */
  function Distance(cfg: Config, known: set<TableName>, n: string, x: Place): nat {
    if n in Wants(cfg) then
      if x.body.None? then 2
      else if x.body.value.deleting then 3
      else if x.body.value.spec != WantedSpec(cfg, n) then 2
      else if Holds(x.body.value) && Acceptable(Wants(cfg)[n], known) && x.entry == Some(Wanted(Wants(cfg)[n])) then 0
      else 1
    else if x.body.None? then 0
    else if x.body.value.deleting then 1
    else if Holds(x.body.value) then 2
    else 3
  }

  /** The action that brings a place at this distance closer. */
  function Responsible(cfg: Config, n: string, distance: nat): Action {
    if (n in Wants(cfg) && distance == 2) || (n !in Wants(cfg) && distance > 1) then ConfigReconciled
    else PublicationReconciled(ResourceName(cfg.name, n))
  }

  lemma ActedLowers(cfg: Config, known: set<TableName>, names: set<string>, n: string, a: Action, x: Place)
    requires GoodConfig(cfg, known, names) && PlaceSound(cfg, n, x) && Healthy(cfg, known, n, x)
    ensures var before, after := Distance(cfg, known, n, x), Distance(cfg, known, n, Acted(cfg, known, n, a, x));
            && after <= before
            && (before > 0 && Responsible(cfg, n, before) == a ==> after < before)
            && (before == 0 ==> Acted(cfg, known, n, a, x) == x)
  {
  }

  // ---------------------------------------------------------------------------------------------------
  // The actions on the world
  // ---------------------------------------------------------------------------------------------------

  lemma OwnedAtPlace(w: World, cfg: Config, names: set<string>, n: string)
    requires Sound(w, cfg, names) && n in names
    ensures ResourceName(cfg.name, n) in w.bodies <==> n in OwnedNames(w.bodies, cfg.name)
  {
    var r := ResourceName(cfg.name, n);
    if r in w.bodies {
      assert PlaceSound(cfg, n, PlaceOf(w, cfg, n));
      assert Owned(w.bodies[r], cfg.name) && PubName(w.bodies[r]) == n;
    }
    if n in OwnedNames(w.bodies, cfg.name) {
      var q :| q in w.bodies && Owned(w.bodies[q], cfg.name) && PubName(w.bodies[q]) == n;
      assert FramedAt(w.bodies[q], cfg, names, q);
    }
  }

  lemma SoundIsCollisionFree(w: World, cfg: Config, names: set<string>)
    requires Sound(w, cfg, names)
    ensures CollisionFree(w.bodies, cfg) && Disciplined(w.bodies, cfg.name)
  {
    forall n | n in ToCreate(w.bodies, cfg)
      ensures n in names && ResourceName(cfg.name, n) !in w.bodies
    {
      OwnedAtPlace(w, cfg, names, n);
    }
    forall r | r in w.bodies && Owned(w.bodies[r], cfg.name)
      ensures r == ResourceName(cfg.name, PubName(w.bodies[r]))
    {
      assert FramedAt(w.bodies[r], cfg, names, r);
    }
  }

  lemma ConfigActs(w: World, cfg: Config, names: set<string>, onEmpty: Option<Scope>, n: string)
    requires Sound(w, cfg, names) && n in names
    ensures PlaceOf(Act(w, cfg, onEmpty, ConfigReconciled), cfg, n) == Configured(cfg, n, PlaceOf(w, cfg, n))
  {
    var r := ResourceName(cfg.name, n);
    SoundIsCollisionFree(w, cfg, names);
    OutcomeAt(w.bodies, cfg, r);
    OwnedAtPlace(w, cfg, names, n);
    if r in Creations(w.bodies, cfg) {
      CreationAt(w.bodies, cfg, r);
      var m := PubName(Creations(w.bodies, cfg)[r]);
      assert m in names && m == n;
    } else if r !in w.bodies {
      assert n !in ToCreate(w.bodies, cfg);
    }
  }

  lemma ConfigKeepsFrame(w: World, cfg: Config, names: set<string>, r: string)
    requires Sound(w, cfg, names) && CollisionFree(w.bodies, cfg) && r in Outcome(w.bodies, cfg)
    ensures FramedAt(Outcome(w.bodies, cfg)[r], cfg, names, r)
  {
    OutcomeAt(w.bodies, cfg, r);
    if r in w.bodies {
      assert FramedAt(w.bodies[r], cfg, names, r);
      TreatedKeepsFrame(w.bodies[r], cfg, names, r);
    } else {
      CreationAt(w.bodies, cfg, r);
      NewBodyOwned(cfg, Wants(cfg)[PubName(Creations(w.bodies, cfg)[r])]);
    }
  }

  lemma TreatedKeepsFrame(b: Body, cfg: Config, names: set<string>, r: string)
    requires FramedAt(b, cfg, names, r)
    ensures Treated(cfg, b).Some? ==> FramedAt(Treated(cfg, b).value, cfg, names, r)
  {
    if Treated(cfg, b).Some? {
      assert Treated(cfg, b).value.owners == b.owners;
    }
  }

  /** A reconcile touches no other object, no other publication and no table. */
  lemma SettleTouchesOne(w: World, key: string, onEmpty: Option<Scope>)
    requires key in w.bodies
    ensures var name := NameOf(w.bodies[key].spec.publication);
            var after := Settle(w, key, true, onEmpty);
            && after.catalog == WithEntry(w.catalog, name, Find(after.catalog.publications, name))
            && after.bodies == Put(w.bodies, key, Find(after.bodies, key))
            && (key in after.bodies ==>
                  after.bodies[key] == w.bodies[key].(finalizers := after.bodies[key].finalizers)
                  && (w.bodies[key].deleting && w.bodies[key].finalizers != [] ==> after.bodies[key].finalizers != []))
  {
    var b := w.bodies[key];
    var p, aiven := b.spec.publication, b.spec.ref.variant == VARIANT_AIVEN;
    PutSame(w.catalog.publications, NameOf(p));
    PutSame(w.bodies, key);
    ReconcileTouchesOne(w.catalog, [], p, aiven, true, onEmpty);
  }

  lemma OthersUntouched(w: World, key: string, name: string, r: string, other: string, after: World)
    requires after.catalog == WithEntry(w.catalog, name, Find(after.catalog.publications, name))
    requires after.bodies == Put(w.bodies, key, Find(after.bodies, key))
    requires r != key && other != name
    ensures Find(after.bodies, r) == Find(w.bodies, r)
    ensures Find(after.catalog.publications, other) == Find(w.catalog.publications, other)
  {
    assert Find(after.catalog.publications, other)
           == Find(WithEntry(w.catalog, name, Find(after.catalog.publications, name)).publications, other);
    assert Find(after.bodies, r) == Find(Put(w.bodies, key, Find(after.bodies, key)), r);
  }

  lemma PublicationActsElsewhere(w: World, cfg: Config, names: set<string>, onEmpty: Option<Scope>, key: string,
                                 n: string)
    requires Sound(w, cfg, names) && n in names && key in w.bodies && key != ResourceName(cfg.name, n)
    ensures PlaceOf(Settle(w, key, true, onEmpty), cfg, n) == PlaceOf(w, cfg, n)
  {
    var b := w.bodies[key];
    SettleTouchesOne(w, key, onEmpty);
    assert FramedAt(b, cfg, names, key);
    assert NameOf(b.spec.publication) != Strip(n);
    OthersUntouched(w, key, NameOf(b.spec.publication), ResourceName(cfg.name, n), Strip(n),
                    Settle(w, key, true, onEmpty));
  }

  lemma EntryOf(c: Catalog, name: string, e: Option<Entry>)
    ensures Find(WithEntry(c, name, e).publications, name) == e
  {
  }

  lemma SettleUnmarked(w: World, r: string, onEmpty: Option<Scope>)
    requires r in w.bodies && !w.bodies[r].deleting && Usable(w.bodies[r].spec)
    requires w.bodies[r].finalizers == [] || w.bodies[r].finalizers == [FINALIZER]
    ensures var b, name, after := w.bodies[r], NameOf(w.bodies[r].spec.publication), Settle(w, r, true, onEmpty);
            && Find(after.bodies, r) == Some(b.(finalizers := [FINALIZER]))
            && Find(after.catalog.publications, name)
            == NextEntry(Find(w.catalog.publications, name), w.catalog.tables.Keys, b.spec.publication)
  {
    var b, name := w.bodies[r], NameOf(w.bodies[r].spec.publication);
    EntryAfterReconcile(w.catalog, b.spec, onEmpty);
    EntryOf(w.catalog, name, NextEntry(Find(w.catalog.publications, name), w.catalog.tables.Keys, b.spec.publication));
    assert [FINALIZER][0] == FINALIZER;
    if !Holds(b) {
      assert b.finalizers + [FINALIZER] == [FINALIZER];
    }
  }

  lemma SettleMarked(w: World, r: string, onEmpty: Option<Scope>)
    requires r in w.bodies && w.bodies[r].deleting && w.bodies[r].finalizers == [FINALIZER]
             && KnownVariant(w.bodies[r].spec.ref.variant)
    requires NameOf(w.bodies[r].spec.publication) in w.catalog.publications
    ensures var after := Settle(w, r, true, onEmpty);
            Find(after.bodies, r) == None
              && Find(after.catalog.publications, NameOf(w.bodies[r].spec.publication)) == None
  {
    assert Without([FINALIZER], FINALIZER) == [];
    EntryOf(w.catalog, NameOf(w.bodies[r].spec.publication), None);
  }

  lemma PublicationActsHere(w: World, cfg: Config, names: set<string>, onEmpty: Option<Scope>, n: string)
    requires Sound(w, cfg, names) && n in names
    ensures PlaceOf(Settle(w, ResourceName(cfg.name, n), true, onEmpty), cfg, n)
            == Reconciled(w.catalog.tables.Keys, PlaceOf(w, cfg, n))
  {
    var r := ResourceName(cfg.name, n);
    assert PlaceSound(cfg, n, PlaceOf(w, cfg, n));
    if r in w.bodies {
      assert NameOf(w.bodies[r].spec.publication) == Strip(n);
      if w.bodies[r].deleting {
        if Strip(n) in w.catalog.publications {
          SettleMarked(w, r, onEmpty);
        }
      } else {
        SettleUnmarked(w, r, onEmpty);
      }
    }
  }

  /** Every action does to every place what it should. */
  lemma ActAtPlace(w: World, cfg: Config, names: set<string>, onEmpty: Option<Scope>, a: Action, n: string)
    requires Sound(w, cfg, names) && n in names
    ensures PlaceOf(Act(w, cfg, onEmpty, a), cfg, n) == Acted(cfg, w.catalog.tables.Keys, n, a, PlaceOf(w, cfg, n))
  {
    match a
    case ConfigReconciled => ConfigActs(w, cfg, names, onEmpty, n);
    case PublicationReconciled(key) =>
      if key == ResourceName(cfg.name, n) {
        PublicationActsHere(w, cfg, names, onEmpty, n);
      } else if key in w.bodies {
        PublicationActsElsewhere(w, cfg, names, onEmpty, key, n);
      }
  }

  lemma ConfigKeepsFraming(w: World, cfg: Config, names: set<string>, onEmpty: Option<Scope>)
    requires Sound(w, cfg, names)
    ensures Framed(Act(w, cfg, onEmpty, ConfigReconciled), cfg, names)
  {
    var after := Act(w, cfg, onEmpty, ConfigReconciled);
    SoundIsCollisionFree(w, cfg, names);
    forall r | r in after.bodies
      ensures FramedAt(after.bodies[r], cfg, names, r)
    {
      ConfigKeepsFrame(w, cfg, names, r);
    }
  }

  lemma PublicationKeepsFraming(w: World, cfg: Config, names: set<string>, onEmpty: Option<Scope>, key: string)
    requires Sound(w, cfg, names)
    ensures Framed(Act(w, cfg, onEmpty, PublicationReconciled(key)), cfg, names)
    ensures Act(w, cfg, onEmpty, PublicationReconciled(key)).catalog.tables == w.catalog.tables
  {
    var after := Act(w, cfg, onEmpty, PublicationReconciled(key));
    if key in w.bodies {
      SettleTouchesOne(w, key, onEmpty);
      assert FramedAt(w.bodies[key], cfg, names, key);
      forall r | r in after.bodies
        ensures FramedAt(after.bodies[r], cfg, names, r)
      {
        if r == key {
          assert after.bodies[key].owners == w.bodies[key].owners;
        } else {
          assert after.bodies[r] == w.bodies[r] && FramedAt(w.bodies[r], cfg, names, r);
        }
      }
    }
  }

  lemma ActKeepsSound(w: World, cfg: Config, names: set<string>, onEmpty: Option<Scope>, a: Action)
    requires Sound(w, cfg, names)
    ensures Sound(Act(w, cfg, onEmpty, a), cfg, names)
    ensures Act(w, cfg, onEmpty, a).catalog.tables == w.catalog.tables
  {
    var after := Act(w, cfg, onEmpty, a);
    match a {
      case ConfigReconciled => ConfigKeepsFraming(w, cfg, names, onEmpty);
      case PublicationReconciled(key) => PublicationKeepsFraming(w, cfg, names, onEmpty, key);
    }
    forall n | n in names
      ensures PlaceSound(cfg, n, PlaceOf(after, cfg, n))
    {
      ActAtPlace(w, cfg, names, onEmpty, a, n);
      ActedSound(cfg, w.catalog.tables.Keys, names, n, a, PlaceOf(w, cfg, n));
    }
  }

  lemma ActKeepsGood(w: World, cfg: Config, names: set<string>, onEmpty: Option<Scope>, a: Action)
    requires Good(w, cfg, names)
    ensures Good(Act(w, cfg, onEmpty, a), cfg, names)
  {
    var after := Act(w, cfg, onEmpty, a);
    ActKeepsSound(w, cfg, names, onEmpty, a);
    forall n | n in names
      ensures HealthyAt(after, cfg, n)
    {
      assert HealthyAt(w, cfg, n);
      ActAtPlace(w, cfg, names, onEmpty, a, n);
      ActedSound(cfg, w.catalog.tables.Keys, names, n, a, PlaceOf(w, cfg, n));
    }
  }

  function DistanceAt(w: World, cfg: Config, n: string): nat {
    Distance(cfg, w.catalog.tables.Keys, n, PlaceOf(w, cfg, n))
  }

  /** No action takes a place further away, the responsible one brings it closer, and at the goal it rests. */
  lemma ActLowers(w: World, cfg: Config, names: set<string>, onEmpty: Option<Scope>, a: Action, n: string)
    requires Good(w, cfg, names) && n in names
    ensures var after := Act(w, cfg, onEmpty, a);
            && DistanceAt(after, cfg, n) <= DistanceAt(w, cfg, n)
            && (DistanceAt(w, cfg, n) > 0 && a == Responsible(cfg, n, DistanceAt(w, cfg, n)) ==>
                  DistanceAt(after, cfg, n) < DistanceAt(w, cfg, n))
            && (DistanceAt(w, cfg, n) == 0 ==> PlaceOf(after, cfg, n) == PlaceOf(w, cfg, n))
  {
    assert HealthyAt(w, cfg, n);
    ActKeepsSound(w, cfg, names, onEmpty, a);
    ActAtPlace(w, cfg, names, onEmpty, a, n);
    ActedLowers(cfg, w.catalog.tables.Keys, names, n, a, PlaceOf(w, cfg, n));
  }

  // ---------------------------------------------------------------------------------------------------
  // Schedules
  // ---------------------------------------------------------------------------------------------------

  function Acts(w: World, cfg: Config, onEmpty: Option<Scope>, actions: seq<Action>): World
    decreases |actions|
  {
    if actions == [] then w else Acts(Act(w, cfg, onEmpty, actions[0]), cfg, onEmpty, actions[1..])
  }

  /** Everything is reconciled at least once, in any order. */
  predicate IsRound(cfg: Config, names: set<string>, actions: seq<Action>) {
    ConfigReconciled in actions && forall n :: n in names ==>
      PublicationReconciled(ResourceName(cfg.name, n)) in actions
  }

  lemma {:induction false} ActsKeepGood(w: World, cfg: Config, names: set<string>, onEmpty: Option<Scope>,
                                        actions: seq<Action>)
    requires Good(w, cfg, names)
    ensures Good(Acts(w, cfg, onEmpty, actions), cfg, names)
    decreases |actions|
  {
    if actions != [] {
      ActKeepsGood(w, cfg, names, onEmpty, actions[0]);
      ActsKeepGood(Act(w, cfg, onEmpty, actions[0]), cfg, names, onEmpty, actions[1..]);
    }
  }

  lemma {:induction false} ActsLower(w: World, cfg: Config, names: set<string>, onEmpty: Option<Scope>,
                                     actions: seq<Action>, n: string)
    requires Good(w, cfg, names) && n in names
    ensures var after := Acts(w, cfg, onEmpty, actions);
            && DistanceAt(after, cfg, n) <= DistanceAt(w, cfg, n)
            && (DistanceAt(w, cfg, n) > 0 && Responsible(cfg, n, DistanceAt(w, cfg, n)) in actions ==>
                  DistanceAt(after, cfg, n) < DistanceAt(w, cfg, n))
            && (DistanceAt(w, cfg, n) == 0 ==> PlaceOf(after, cfg, n) == PlaceOf(w, cfg, n))
    decreases |actions|
  {
    if actions != [] {
      var next := Act(w, cfg, onEmpty, actions[0]);
      ActLowers(w, cfg, names, onEmpty, actions[0], n);
      ActKeepsGood(w, cfg, names, onEmpty, actions[0]);
      ActsLower(next, cfg, names, onEmpty, actions[1..], n);
    }
  }

  lemma RoundLowers(w: World, cfg: Config, names: set<string>, onEmpty: Option<Scope>, round: seq<Action>, n: string)
    requires Good(w, cfg, names) && n in names && IsRound(cfg, names, round)
    ensures var before, after := DistanceAt(w, cfg, n), DistanceAt(Acts(w, cfg, onEmpty, round), cfg, n);
            after < before || after == before == 0
  {
    ActsLower(w, cfg, names, onEmpty, round, n);
  }

  lemma {:induction false} ActsKeepLeaving(w: World, cfg: Config, names: set<string>, onEmpty: Option<Scope>,
                                           actions: seq<Action>, n: string)
    requires Sound(w, cfg, names) && n in names && Leaving(cfg, n, PlaceOf(w, cfg, n))
    ensures Leaving(cfg, n, PlaceOf(Acts(w, cfg, onEmpty, actions), cfg, n))
    decreases |actions|
  {
    if actions != [] {
      ActAtPlace(w, cfg, names, onEmpty, actions[0], n);
      LeavingStays(cfg, w.catalog.tables.Keys, n, actions[0], PlaceOf(w, cfg, n));
      ActKeepsSound(w, cfg, names, onEmpty, actions[0]);
      ActsKeepLeaving(Act(w, cfg, onEmpty, actions[0]), cfg, names, onEmpty, actions[1..], n);
    }
  }

  /** The owned objects are those asked for, as asked for, and their publications exist as asked for. */
  predicate Converged(w: World, cfg: Config) {
    && OwnedNames(w.bodies, cfg.name) == Wants(cfg).Keys
    && Disciplined(w.bodies, cfg.name)
    && forall n :: n in Wants(cfg) ==> ConvergedAt(w, cfg, n)
  }

  predicate ConvergedAt(w: World, cfg: Config, n: string)
    requires n in Wants(cfg)
  {
    var r, p := ResourceName(cfg.name, n), Wants(cfg)[n];
    && r in w.bodies
    && w.bodies[r].spec == WantedSpec(cfg, n) && !w.bodies[r].deleting && Holds(w.bodies[r])
    && PublishSet(PublishOf(p)).Some? && Find(w.catalog.publications, NameOf(p)) == Some(Wanted(p))
  }

  /** Neither the object nor the publication is left. */
  predicate Gone(w: World, cfg: Config, n: string) {
    ResourceName(cfg.name, n) !in w.bodies && Strip(n) !in w.catalog.publications
  }

  lemma NoDistanceIsConverged(w: World, cfg: Config, names: set<string>)
    requires Good(w, cfg, names) && forall n :: n in names ==> DistanceAt(w, cfg, n) == 0
    ensures Converged(w, cfg)
  {
    SoundIsCollisionFree(w, cfg, names);
    forall n
      ensures n in OwnedNames(w.bodies, cfg.name) <==> n in Wants(cfg)
    {
      if n in OwnedNames(w.bodies, cfg.name) {
        var r :| r in w.bodies && Owned(w.bodies[r], cfg.name) && PubName(w.bodies[r]) == n;
        assert FramedAt(w.bodies[r], cfg, names, r);
        assert DistanceAt(w, cfg, n) == 0;
      }
      if n in Wants(cfg) {
        assert DistanceAt(w, cfg, n) == 0;
        OwnedAtPlace(w, cfg, names, n);
      }
    }
    forall n | n in Wants(cfg)
      ensures ConvergedAt(w, cfg, n)
    {
      assert DistanceAt(w, cfg, n) == 0;
    }
  }

  lemma ThreeRoundsLower(w: World, cfg: Config, names: set<string>, onEmpty: Option<Scope>,
                         first: seq<Action>, second: seq<Action>, third: seq<Action>, n: string)
    requires Good(w, cfg, names) && n in names
    requires IsRound(cfg, names, first) && IsRound(cfg, names, second) && IsRound(cfg, names, third)
    ensures DistanceAt(Acts(Acts(Acts(w, cfg, onEmpty, first), cfg, onEmpty, second), cfg, onEmpty, third), cfg, n) == 0
  {
    var w1 := Acts(w, cfg, onEmpty, first);
    var w2 := Acts(w1, cfg, onEmpty, second);
    ActsKeepGood(w, cfg, names, onEmpty, first);
    ActsKeepGood(w1, cfg, names, onEmpty, second);
    RoundLowers(w, cfg, names, onEmpty, first, n);
    RoundLowers(w1, cfg, names, onEmpty, second, n);
    RoundLowers(w2, cfg, names, onEmpty, third, n);
  }

  function ThreeRounds(w: World, cfg: Config, onEmpty: Option<Scope>, first: seq<Action>, second: seq<Action>,
                       third: seq<Action>): World {
    Acts(Acts(Acts(w, cfg, onEmpty, first), cfg, onEmpty, second), cfg, onEmpty, third)
  }

  lemma ThreeRoundsKeep(w: World, cfg: Config, names: set<string>, onEmpty: Option<Scope>,
                        first: seq<Action>, second: seq<Action>, third: seq<Action>)
    requires Good(w, cfg, names)
    ensures Good(ThreeRounds(w, cfg, onEmpty, first, second, third), cfg, names)
    ensures forall n :: n in names && Leaving(cfg, n, PlaceOf(w, cfg, n)) ==>
              Leaving(cfg, n, PlaceOf(ThreeRounds(w, cfg, onEmpty, first, second, third), cfg, n))
  {
    var w1 := Acts(w, cfg, onEmpty, first);
    var w2 := Acts(w1, cfg, onEmpty, second);
    ActsKeepGood(w, cfg, names, onEmpty, first);
    ActsKeepGood(w1, cfg, names, onEmpty, second);
    ActsKeepGood(w2, cfg, names, onEmpty, third);
    forall n | n in names && Leaving(cfg, n, PlaceOf(w, cfg, n))
      ensures Leaving(cfg, n, PlaceOf(ThreeRounds(w, cfg, onEmpty, first, second, third), cfg, n))
    {
      ActsKeepLeaving(w, cfg, names, onEmpty, first, n);
      ActsKeepLeaving(w1, cfg, names, onEmpty, second, n);
      ActsKeepLeaving(w2, cfg, names, onEmpty, third, n);
    }
  }

  lemma LeavingEndsGone(w: World, cfg: Config, n: string)
    requires Leaving(cfg, n, PlaceOf(w, cfg, n)) && DistanceAt(w, cfg, n) == 0
    ensures Gone(w, cfg, n)
  {
  }

  /**
   Three rounds suffice, from any good state and for any schedule: the owned objects and their publications
   are as asked for, the publications that were to go are gone with their objects, and nothing moves
   afterwards.
   */
  lemma ThreeRoundsConverge(w: World, cfg: Config, names: set<string>, onEmpty: Option<Scope>,
                            first: seq<Action>, second: seq<Action>, third: seq<Action>, rest: seq<Action>)
    requires Good(w, cfg, names)
    requires IsRound(cfg, names, first) && IsRound(cfg, names, second) && IsRound(cfg, names, third)
    ensures var w3 := ThreeRounds(w, cfg, onEmpty, first, second, third);
            var w4 := Acts(w3, cfg, onEmpty, rest);
            && Converged(w3, cfg) && Converged(w4, cfg)
            && (forall n :: n in names && Leaving(cfg, n, PlaceOf(w, cfg, n)) ==> Gone(w3, cfg, n) && Gone(w4, cfg, n))
            && forall n :: n in names ==> PlaceOf(w4, cfg, n) == PlaceOf(w3, cfg, n)
  {
    var w3 := ThreeRounds(w, cfg, onEmpty, first, second, third);
    var w4 := Acts(w3, cfg, onEmpty, rest);
    ThreeRoundsKeep(w, cfg, names, onEmpty, first, second, third);
    ActsKeepGood(w3, cfg, names, onEmpty, rest);
    forall n | n in names
      ensures DistanceAt(w3, cfg, n) == 0 && DistanceAt(w4, cfg, n) == 0 && PlaceOf(w4, cfg, n) == PlaceOf(w3, cfg, n)
    {
      ThreeRoundsLower(w, cfg, names, onEmpty, first, second, third, n);
      ActsLower(w3, cfg, names, onEmpty, rest, n);
    }
    NoDistanceIsConverged(w3, cfg, names);
    NoDistanceIsConverged(w4, cfg, names);
    forall n | n in names && Leaving(cfg, n, PlaceOf(w, cfg, n))
      ensures Gone(w3, cfg, n) && Gone(w4, cfg, n)
    {
      LeavingEndsGone(w3, cfg, n);
      assert PlaceOf(w4, cfg, n) == PlaceOf(w3, cfg, n);
      LeavingEndsGone(w4, cfg, n);
    }
  }
}
