/**
 The states from which convergence is certain are exactly the good ones: from any other some schedule, with
 no fault and as many rounds as one likes, never gets there.
 */
module ConvergenceLimits {
  import opened Wrappers
  import opened Specs
  import opened SqlGrammar
  import opened PublicationRefinement
  import opened PublicationProtocol
  import opened PublicationController
  import opened ConfigDiff
  import opened Convergence

  /** Marked, with the finalizer, and without a publication: its DROP fails every time. */
  predicate Stranded(x: Place) {
    x.body.Some? && x.body.value.deleting && Holds(x.body.value) && x.entry.None?
  }

  /** Tables are wanted where a publication of all tables is: its ALTER fails every time. */
  predicate Covered(cfg: Config, n: string, x: Place) {
    n in Wants(cfg) && x.entry.Some? && x.entry.value.coverage.Everything? && (x.body.Some? ==> !x.body.value.deleting)
  }

  predicate Stuck(cfg: Config, n: string, x: Place) {
    Stranded(x) || Covered(cfg, n, x)
  }

  /** A reconcile leaves a stranded object exactly as it is. */
  lemma StrandedIsFixed(w: World, key: string, onEmpty: Option<Scope>)
    requires key in w.bodies && w.bodies[key].deleting
             && NameOf(w.bodies[key].spec.publication) !in w.catalog.publications
    ensures Settle(w, key, true, onEmpty) == w
  {
  }

  lemma StuckStays(cfg: Config, known: set<TableName>, n: string, a: Action, x: Place)
    requires PlaceSound(cfg, n, x) && Stuck(cfg, n, x)
    ensures Stuck(cfg, n, Acted(cfg, known, n, a, x))
  {
  }

  lemma {:induction false} StuckForGood(w: World, cfg: Config, names: set<string>, onEmpty: Option<Scope>,
                                        actions: seq<Action>, n: string)
    requires Sound(w, cfg, names) && n in names && Stuck(cfg, n, PlaceOf(w, cfg, n))
    ensures var after := Acts(w, cfg, onEmpty, actions);
            Sound(after, cfg, names) && Stuck(cfg, n, PlaceOf(after, cfg, n))
    decreases |actions|
  {
    if actions != [] {
      assert PlaceSound(cfg, n, PlaceOf(w, cfg, n));
      ActAtPlace(w, cfg, names, onEmpty, actions[0], n);
      StuckStays(cfg, w.catalog.tables.Keys, n, actions[0], PlaceOf(w, cfg, n));
      ActKeepsSound(w, cfg, names, onEmpty, actions[0]);
      StuckForGood(Act(w, cfg, onEmpty, actions[0]), cfg, names, onEmpty, actions[1..], n);
    }
  }

  lemma StuckIsNotConverged(w: World, cfg: Config, names: set<string>, n: string)
    requires Sound(w, cfg, names) && n in names && Stuck(cfg, n, PlaceOf(w, cfg, n))
    ensures !Converged(w, cfg)
  {
    OwnedAtPlace(w, cfg, names, n);
    if n in Wants(cfg) {
      assert Usable(WantedSpec(cfg, n));
      assert !ConvergedAt(w, cfg, n);
    }
  }

  // ---------------------------------------------------------------------------------------------------
  // Every unhealthy place gets stuck under some schedule
  // ---------------------------------------------------------------------------------------------------

  /** What to do first: finish an object that has no finalizer yet, and then let the config have its way. */
  function Provocation(cfg: Config, n: string, x: Place): seq<Action> {
    (if x.body.Some? && !Holds(x.body.value) then [PublicationReconciled(ResourceName(cfg.name, n))] else [])
      + [ConfigReconciled]
  }

  lemma UnhealthyGetsStuck(cfg: Config, known: set<TableName>, n: string, x: Place)
    requires PlaceSound(cfg, n, x) && !Healthy(cfg, known, n, x)
    ensures Stuck(cfg, n, Configured(cfg, n, if x.body.Some? && !Holds(x.body.value) then Reconciled(known, x) else x))
  {
    assert [FINALIZER][0] == FINALIZER;
  }

  lemma ConfigSticks(w: World, cfg: Config, names: set<string>, onEmpty: Option<Scope>, n: string)
    requires Sound(w, cfg, names) && n in names && Stuck(cfg, n, Configured(cfg, n, PlaceOf(w, cfg, n)))
    ensures var after := Acts(w, cfg, onEmpty, [ConfigReconciled]);
            Sound(after, cfg, names) && Stuck(cfg, n, PlaceOf(after, cfg, n))
  {
    ActAtPlace(w, cfg, names, onEmpty, ConfigReconciled, n);
    ActKeepsSound(w, cfg, names, onEmpty, ConfigReconciled);
    ActsOne(w, cfg, onEmpty, ConfigReconciled);
  }

  lemma ProvokedIsStuck(w: World, cfg: Config, names: set<string>, onEmpty: Option<Scope>, n: string)
    requires Sound(w, cfg, names) && n in names && !HealthyAt(w, cfg, n)
    ensures var after := Acts(w, cfg, onEmpty, Provocation(cfg, n, PlaceOf(w, cfg, n)));
            Sound(after, cfg, names) && Stuck(cfg, n, PlaceOf(after, cfg, n))
  {
    var x, visit := PlaceOf(w, cfg, n), PublicationReconciled(ResourceName(cfg.name, n));
    assert PlaceSound(cfg, n, x);
    UnhealthyGetsStuck(cfg, w.catalog.tables.Keys, n, x);
    if x.body.Some? && !Holds(x.body.value) {
      ActAtPlace(w, cfg, names, onEmpty, visit, n);
      ActKeepsSound(w, cfg, names, onEmpty, visit);
      ConfigSticks(Act(w, cfg, onEmpty, visit), cfg, names, onEmpty, n);
      ActsOne(w, cfg, onEmpty, visit);
      ActsAppend(w, cfg, onEmpty, [visit], [ConfigReconciled]);
    } else {
      ConfigSticks(w, cfg, names, onEmpty, n);
      assert Provocation(cfg, n, x) == [ConfigReconciled];
    }
  }

  lemma ActsOne(w: World, cfg: Config, onEmpty: Option<Scope>, a: Action)
    ensures Acts(w, cfg, onEmpty, [a]) == Act(w, cfg, onEmpty, a)
  {
    assert Acts(Act(w, cfg, onEmpty, a), cfg, onEmpty, []) == Act(w, cfg, onEmpty, a);
  }

  /** Each publication once. */
  ghost function Visits(cfg: Config, names: set<string>): (actions: seq<Action>)
    ensures forall n :: n in names ==> PublicationReconciled(ResourceName(cfg.name, n)) in actions
  {
    if names == {} then []
    else
      var n :| n in names;
      [PublicationReconciled(ResourceName(cfg.name, n))] + Visits(cfg, names - {n})
  }

  ghost function Round(cfg: Config, names: set<string>): (actions: seq<Action>)
    ensures IsRound(cfg, names, actions)
  {
    [ConfigReconciled] + Visits(cfg, names)
  }

  lemma {:induction false} ActsAppend(w: World, cfg: Config, onEmpty: Option<Scope>, a: seq<Action>, b: seq<Action>)
    ensures Acts(w, cfg, onEmpty, a + b) == Acts(Acts(w, cfg, onEmpty, a), cfg, onEmpty, b)
    decreases |a|
  {
    if a == [] {
      assert a + b == b;
    } else {
      assert (a + b)[1..] == a[1..] + b;
      ActsAppend(Act(w, cfg, onEmpty, a[0]), cfg, onEmpty, a[1..], b);
    }
  }

  /** Whatever three rounds are made of, they get there. */
  ghost predicate AlwaysConverges(w: World, cfg: Config, names: set<string>, onEmpty: Option<Scope>) {
    forall first, second, third ::
      IsRound(cfg, names, first) && IsRound(cfg, names, second) && IsRound(cfg, names, third) ==>
        Converged(ThreeRounds(w, cfg, onEmpty, first, second, third), cfg)
  }

  lemma StuckThrough(w: World, cfg: Config, names: set<string>, onEmpty: Option<Scope>,
                     first: seq<Action>, second: seq<Action>, third: seq<Action>, n: string)
    requires Sound(w, cfg, names) && n in names && Stuck(cfg, n, PlaceOf(w, cfg, n))
    ensures !Converged(ThreeRounds(w, cfg, onEmpty, first, second, third), cfg)
  {
    var w1 := Acts(w, cfg, onEmpty, first);
    var w2 := Acts(w1, cfg, onEmpty, second);
    StuckForGood(w, cfg, names, onEmpty, first, n);
    StuckForGood(w1, cfg, names, onEmpty, second, n);
    StuckForGood(w2, cfg, names, onEmpty, third, n);
    StuckIsNotConverged(Acts(w2, cfg, onEmpty, third), cfg, names, n);
  }

  lemma OneFails(w: World, cfg: Config, names: set<string>, onEmpty: Option<Scope>,
                 first: seq<Action>, second: seq<Action>, third: seq<Action>)
    requires IsRound(cfg, names, first) && IsRound(cfg, names, second) && IsRound(cfg, names, third)
    requires !Converged(ThreeRounds(w, cfg, onEmpty, first, second, third), cfg)
    ensures !AlwaysConverges(w, cfg, names, onEmpty)
  {
  }

  lemma SomeScheduleFails(w: World, cfg: Config, names: set<string>, onEmpty: Option<Scope>, n: string)
    requires Sound(w, cfg, names) && n in names && !HealthyAt(w, cfg, n)
    ensures !AlwaysConverges(w, cfg, names, onEmpty)
  {
    var before, round := Provocation(cfg, n, PlaceOf(w, cfg, n)), Round(cfg, names);
    var stuck := Acts(w, cfg, onEmpty, before);
    ProvokedIsStuck(w, cfg, names, onEmpty, n);
    ActsAppend(w, cfg, onEmpty, before, round);
    StuckThrough(stuck, cfg, names, onEmpty, round, round, round, n);
    assert ThreeRounds(w, cfg, onEmpty, before + round, round, round)
           == ThreeRounds(stuck, cfg, onEmpty, round, round, round);
    OneFails(w, cfg, names, onEmpty, before + round, round, round);
  }

  /**
   Every schedule of three rounds converges if and only if every place is healthy: marked or unwanted objects
   that hold the finalizer have their publications, unwanted objects without it ask for something that can
   be made, and no publication of all tables stands where tables are wanted.
   */
  lemma ConvergesExactly(w: World, cfg: Config, names: set<string>, onEmpty: Option<Scope>)
    requires Sound(w, cfg, names)
    ensures AlwaysConverges(w, cfg, names, onEmpty) <==> forall n :: n in names ==> HealthyAt(w, cfg, n)
  {
    if n :| n in names && !HealthyAt(w, cfg, n) {
      SomeScheduleFails(w, cfg, names, onEmpty, n);
    } else {
      forall first, second, third | IsRound(cfg, names, first) && IsRound(cfg, names, second)
        && IsRound(cfg, names, third)
        ensures Converged(ThreeRounds(w, cfg, onEmpty, first, second, third), cfg)
      {
        ThreeRoundsConverge(w, cfg, names, onEmpty, first, second, third, []);
      }
    }
  }
}
