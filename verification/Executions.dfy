/**
 The actions of Convergence are what the controllers' methods do: executions of the two reconciles on the
 API server's store and the catalog, with versions and identities, converge.
 */
module Executions {
  import opened Wrappers
  import opened SqlText
  import opened SqlGrammar
  import opened Postgres
  import opened Kube
  import opened PublicationController
  import opened PublicationRuns
  import opened ConfigDiff
  import C = ConfigController
  import opened ConfigOutcome
  import opened Convergence
  import opened ConvergenceLimits

  datatype System = System(api: Api, catalog: Catalog)

  /** A reconcile of the config, with the list it was given and the order of its maps, or of one object. */
  datatype Visit = ConfigVisit(listed: seq<C.Item>, order: C.Order) | PublicationVisit(key: string)

  function WorldOf(s: System): World {
    World(BodiesOf(s.api), s.catalog)
  }

  function ActionOf(v: Visit): Action {
    match v
    case ConfigVisit(_, _) => ConfigReconciled
    case PublicationVisit(key) => PublicationReconciled(key)
  }

  function ActionsOf(visits: seq<Visit>): seq<Action> {
    seq(|visits|, i requires 0 <= i < |visits| => ActionOf(visits[i]))
  }

  /** The list is up to date and the order is one in which the maps can be gone through. */
  ghost predicate Proper(s: System, cfg: Config, v: Visit) {
    v.ConfigVisit? ==> UpToDate(s.api, cfg.name, v.listed) && C.IsOrder(v.order, C.ByName(v.listed), Wants(cfg))
  }

  /** What the reconcile methods of the two controllers do when no call fails. */
  ghost function Visited(s: System, cfg: Config, onEmpty: Option<Scope>, v: Visit): System
    requires Proper(s, cfg, v)
  {
    match v
    case ConfigVisit(listed, order) => System(C.ConfigRun(s.api, [], cfg, listed, order).0, s.catalog)
    case PublicationVisit(key) =>
      var st := PublicationRun(Stores(s.api, [], s.catalog, []), key, Find(s.api.objs, key), true, true, onEmpty).0;
      System(st.api, st.catalog)
  }

  lemma VisitIsAct(s: System, cfg: Config, names: set<string>, onEmpty: Option<Scope>, v: Visit)
    requires Good(WorldOf(s), cfg, names) && Proper(s, cfg, v)
    ensures WorldOf(Visited(s, cfg, onEmpty, v)) == Act(WorldOf(s), cfg, onEmpty, ActionOf(v))
  {
    match v
    case ConfigVisit(listed, order) =>
      SoundIsCollisionFree(WorldOf(s), cfg, names);
      forall r | r in s.api.objs && s.api.objs[r].body.deleting
        ensures s.api.objs[r].body.finalizers != []
      {
        assert r in WorldOf(s).bodies;
        assert FramedAt(WorldOf(s).bodies[r], cfg, names, r);
      }
      SucceedsExactly(s.api, [], cfg, listed, order);
    case PublicationVisit(key) =>
      UndisturbedReconcile(Stores(s.api, [], s.catalog, []), key, true, onEmpty);
  }

  ghost predicate IsExecution(states: seq<System>, visits: seq<Visit>, cfg: Config, onEmpty: Option<Scope>) {
    && |states| == |visits| + 1
    && forall i :: 0 <= i < |visits| ==>
       Proper(states[i], cfg, visits[i]) && states[i + 1] == Visited(states[i], cfg, onEmpty, visits[i])
  }

  lemma {:induction false} ExecutionIsActs(states: seq<System>, visits: seq<Visit>, cfg: Config, names: set<string>,
                                           onEmpty: Option<Scope>)
    requires IsExecution(states, visits, cfg, onEmpty) && Good(WorldOf(states[0]), cfg, names)
    ensures WorldOf(states[|visits|]) == Acts(WorldOf(states[0]), cfg, onEmpty, ActionsOf(visits))
    decreases |visits|
  {
    if visits != [] {
      VisitIsAct(states[0], cfg, names, onEmpty, visits[0]);
      ActKeepsGood(WorldOf(states[0]), cfg, names, onEmpty, ActionOf(visits[0]));
      assert states[1] == Visited(states[0], cfg, onEmpty, visits[0]);
      forall i | 0 <= i < |visits[1..]|
        ensures Proper(states[1..][i], cfg, visits[1..][i])
                && states[1..][i + 1] == Visited(states[1..][i], cfg, onEmpty, visits[1..][i])
      {
        assert states[1..][i] == states[i + 1] && visits[1..][i] == visits[i + 1]
               && states[1..][i + 1] == states[i + 1 + 1];
      }
      ExecutionIsActs(states[1..], visits[1..], cfg, names, onEmpty);
      assert ActionsOf(visits)[1..] == ActionsOf(visits[1..]);
    }
  }

  /**
   End to end: every execution of the two reconciles that goes three rounds from a good state, whatever the
   order of visits and of maps, ends with owned specs and catalog as the config asks. Of every publication
   that is not asked for and was the controller's, neither the object nor the catalog entry is left.
   */
  lemma ExecutionsConverge(states: seq<System>, visits: seq<Visit>, cfg: Config, names: set<string>,
                           onEmpty: Option<Scope>,
                           first: seq<Action>, second: seq<Action>, third: seq<Action>, rest: seq<Action>)
    requires IsExecution(states, visits, cfg, onEmpty) && Good(WorldOf(states[0]), cfg, names)
    requires ActionsOf(visits) == first + second + third + rest
    requires IsRound(cfg, names, first) && IsRound(cfg, names, second) && IsRound(cfg, names, third)
    ensures Converged(WorldOf(states[|visits|]), cfg)
    ensures forall n :: n in names && Leaving(cfg, n, PlaceOf(WorldOf(states[0]), cfg, n)) ==>
              && ResourceName(cfg.name, n) !in states[|visits|].api.objs
              && Strip(n) !in states[|visits|].catalog.publications
  {
    var w := WorldOf(states[0]);
    ExecutionIsActs(states, visits, cfg, names, onEmpty);
    ActsAppend(w, cfg, onEmpty, first + second + third, rest);
    ActsAppend(w, cfg, onEmpty, first + second, third);
    ActsAppend(w, cfg, onEmpty, first, second);
    ThreeRoundsConverge(w, cfg, names, onEmpty, first, second, third, rest);
    forall n | n in names && Leaving(cfg, n, PlaceOf(w, cfg, n))
      ensures ResourceName(cfg.name, n) !in states[|visits|].api.objs
              && Strip(n) !in states[|visits|].catalog.publications
    {
      assert Gone(WorldOf(states[|visits|]), cfg, n);
    }
  }
}
