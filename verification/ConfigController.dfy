/**
 controllers/postgresconfig_controller.go. The method Reconcile is proved to carry out ConfigRun in some
 order, call by call and fault by fault; Go leaves the order of its maps open, so what is proved about
 ConfigRun is proved for every order.
 */
module ConfigController {
  import opened Wrappers
  import opened Specs
  import opened Postgres
  import opened Kube
  import opened ConfigDiff

  /** An item of a PostgresPublicationList, with its name. */
  datatype Item = Item(key: string, o: Obj)

  /** The listed objects by publication name; of two with one name the later counts. */
  function ByName(listed: seq<Item>): map<string, Item> {
    if listed == [] then map[]
    else
      var last := listed[|listed| - 1];
      ByName(listed[..|listed| - 1])[PubName(last.o.body) := last]
  }

  lemma {:induction false} ByNameAt(listed: seq<Item>, name: string)
    ensures name in ByName(listed) ==> PubName(ByName(listed)[name].o.body) == name && ByName(listed)[name] in listed
  {
    if listed != [] {
      ByNameAt(listed[..|listed| - 1], name);
    }
  }

  /** The order in which the iterations over the two maps come upon the publications. */
  datatype Order = Order(creates: seq<string>, updates: seq<string>, deletes: seq<string>)

  ghost predicate Enumerates(names: seq<string>, s: set<string>) {
    Distinct(names) && forall n :: n in names <==> n in s
  }

  ghost predicate IsOrder(order: Order, current: map<string, Item>, desired: map<string, Publication>) {
    && Enumerates(order.creates, desired.Keys - current.Keys)
    && Enumerates(order.updates, desired.Keys * current.Keys)
    && Enumerates(order.deletes, current.Keys - desired.Keys)
  }

  function Picked<T>(m: map<string, T>, names: seq<string>): seq<T>
    requires forall n :: n in names ==> n in m
  {
    seq(|names|, i requires 0 <= i < |names| => m[names[i]])
  }

  function NamesIn(publications: seq<Publication>): seq<string> {
    seq(|publications|, i requires 0 <= i < |publications| => publications[i].name)
  }

  function NamesOfItems(items: seq<Item>): seq<string> {
    seq(|items|, i requires 0 <= i < |items| => PubName(items[i].o.body))
  }

  /** The copy of a listed object that is sent to the API server. */
  function Respecified(cfg: Config, current: Item, desired: Publication): Obj {
    current.o.(body := current.o.body.(spec := ResourceSpec(cfg.ref, desired)))
  }

  // ---------------------------------------------------------------------------------------------------
  // What the three loops do
  // ---------------------------------------------------------------------------------------------------

  function CreateRun(api: Api, fates: seq<Fate>, cfg: Config, publications: seq<Publication>): (Api, seq<Fate>, bool)
    decreases |publications|
  {
    if publications == [] then (api, fates, true)
    else
      var key := ResourceName(cfg.name, publications[0].name);
      var (after, ok) := Answer(api, Next(fates), key,
                                CreateAt(Find(api.objs, key), api.clock, NewBody(cfg, publications[0])));
      if ok then CreateRun(after, Later(fates), cfg, publications[1..]) else (after, Later(fates), false)
  }

  function UpdateRun(api: Api, fates: seq<Fate>, cfg: Config, current: seq<Item>, desired: seq<Publication>)
    : (Api, seq<Fate>, bool)
    requires |current| == |desired|
    decreases |current|
  {
    if current == [] then (api, fates, true)
    else
      var key := current[0].key;
      var (after, ok) := Answer(api, Next(fates), key,
                                UpdateAt(Find(api.objs, key), api.clock, Respecified(cfg, current[0], desired[0])));
      if ok then UpdateRun(after, Later(fates), cfg, current[1..], desired[1..]) else (after, Later(fates), false)
  }

  function DeleteRun(api: Api, fates: seq<Fate>, items: seq<Item>): (Api, seq<Fate>, bool)
    decreases |items|
  {
    if items == [] then (api, fates, true)
    else
      var key := items[0].key;
      var (after, ok) := Answer(api, Next(fates), key, DeleteAt(Find(api.objs, key), api.clock));
      if ok then DeleteRun(after, Later(fates), items[1..]) else (after, Later(fates), false)
  }

  /** Creations, then updates; the first failure ends it. */
  function WritesRun(api: Api, fates: seq<Fate>, cfg: Config, listed: seq<Item>, order: Order): (Api, seq<Fate>, bool)
    requires IsOrder(order, ByName(listed), Wants(cfg))
  {
    var current, desired := ByName(listed), Wants(cfg);
    var (a1, f1, ok1) := CreateRun(api, fates, cfg, Picked(desired, order.creates));
    if !ok1 then (a1, f1, false)
      else UpdateRun(a1, f1, cfg, Picked(current, order.updates), Picked(desired, order.updates))
  }

  /** Deletions come last. */
  function ConfigRun(api: Api, fates: seq<Fate>, cfg: Config, listed: seq<Item>, order: Order): (Api, seq<Fate>, bool)
    requires IsOrder(order, ByName(listed), Wants(cfg))
  {
    var (a2, f2, ok2) := WritesRun(api, fates, cfg, listed, order);
    if !ok2 then (a2, f2, false) else DeleteRun(a2, f2, Picked(ByName(listed), order.deletes))
  }

  class ConfigReconciler {
    const server: ApiServer

    constructor (server: ApiServer)
      ensures this.server == server
    {
      this.server := server;
    }

    static method CurrentByName(listed: seq<Item>) returns (current: map<string, Item>)
      ensures current == ByName(listed)
    {
      current := map[];
      for i := 0 to |listed|
        invariant current == ByName(listed[..i])
      {
        current := current[PubName(listed[i].o.body) := listed[i]];
        assert listed[..i + 1][..i] == listed[..i];
      }
      assert listed[..|listed|] == listed;
    }

    static method DesiredByName(publications: seq<Publication>) returns (desired: map<string, Publication>)
      ensures desired == Desired(publications)
      ensures IsByName(publications, desired)
    {
      desired := map[];
      for i := 0 to |publications|
        invariant desired == Desired(publications[..i])
      {
        desired := desired[publications[i].name := publications[i]];
        assert publications[..i + 1][..i] == publications[..i];
      }
      assert publications[..|publications|] == publications;
      LastEntryCounts(publications);
    }

    /** The first loop over a map: what to create, and what to update with what. */
    static method CreatesAndUpdates(current: map<string, Item>, desired: map<string, Publication>)
      returns (create: seq<Publication>, updateCurrent: seq<Item>, updateDesired: seq<Publication>)
      requires forall n :: n in desired ==> desired[n].name == n
      ensures Enumerates(NamesIn(create), desired.Keys - current.Keys) && create == Picked(desired, NamesIn(create))
      ensures Enumerates(NamesIn(updateDesired), desired.Keys * current.Keys)
      ensures updateDesired == Picked(desired, NamesIn(updateDesired))
              && updateCurrent == Picked(current, NamesIn(updateDesired))
    {
      create, updateCurrent, updateDesired := [], [], [];
      var names := desired.Keys;
      while names != {}
        invariant names <= desired.Keys
        invariant Enumerates(NamesIn(create), desired.Keys - current.Keys - names)
                  && create == Picked(desired, NamesIn(create))
        invariant Enumerates(NamesIn(updateDesired), desired.Keys * current.Keys - names)
        invariant updateDesired == Picked(desired, NamesIn(updateDesired))
                  && updateCurrent == Picked(current, NamesIn(updateDesired))
      {
        var name :| name in names;
        if name !in current {
          assert NamesIn(create + [desired[name]]) == NamesIn(create) + [name];
          create := create + [desired[name]];
        } else {
          assert NamesIn(updateDesired + [desired[name]]) == NamesIn(updateDesired) + [name];
          updateCurrent := updateCurrent + [current[name]];
          updateDesired := updateDesired + [desired[name]];
        }
        names := names - {name};
      }
    }

    /** The second: what to delete. */
    static method Deletes(current: map<string, Item>, desired: map<string, Publication>) returns (delete: seq<Item>)
      requires forall n :: n in current ==> PubName(current[n].o.body) == n
      ensures Enumerates(NamesOfItems(delete), current.Keys - desired.Keys)
              && delete == Picked(current, NamesOfItems(delete))
    {
      delete := [];
      var names := current.Keys;
      while names != {}
        invariant names <= current.Keys
        invariant Enumerates(NamesOfItems(delete), current.Keys - desired.Keys - names)
                  && delete == Picked(current, NamesOfItems(delete))
      {
        var name :| name in names;
        if name !in desired {
          assert NamesOfItems(delete + [current[name]]) == NamesOfItems(delete) + [name];
          delete := delete + [current[name]];
        }
        names := names - {name};
      }
    }

    method CreatePublications(config: Config, publications: seq<Publication>) returns (ok: bool)
      modifies server
      ensures (server.api, server.fates, ok) == CreateRun(old(server.api), old(server.fates), config, publications)
    {
      for i := 0 to |publications|
        invariant CreateRun(server.api, server.fates, config, publications[i..])
               == CreateRun(old(server.api), old(server.fates), config, publications)
      {
        assert publications[i..][1..] == publications[i + 1..];
        var created := server.Create(ResourceName(config.name, publications[i].name), NewBody(config, publications[i]));
        if !created {
          return false;
        }
      }
      return true;
    }

    method UpdatePublications(config: Config, current: seq<Item>, desired: seq<Publication>) returns (ok: bool)
      requires |current| == |desired|
      modifies server
      ensures (server.api, server.fates, ok) == UpdateRun(old(server.api), old(server.fates), config, current, desired)
    {
      for i := 0 to |desired|
        invariant UpdateRun(server.api, server.fates, config, current[i..], desired[i..])
               == UpdateRun(old(server.api), old(server.fates), config, current, desired)
      {
        assert current[i..][1..] == current[i + 1..] && desired[i..][1..] == desired[i + 1..];
        var updated, _ := server.Update(current[i].key, Respecified(config, current[i], desired[i]));
        if !updated {
          return false;
        }
      }
      return true;
    }

    method DeletePublications(items: seq<Item>) returns (ok: bool)
      modifies server
      ensures (server.api, server.fates, ok) == DeleteRun(old(server.api), old(server.fates), items)
    {
      for i := 0 to |items|
        invariant DeleteRun(server.api, server.fates, items[i..])
                  == DeleteRun(old(server.api), old(server.fates), items)
      {
        assert items[i..][1..] == items[i + 1..];
        var deleted := server.Delete(items[i].key);
        if !deleted {
          return false;
        }
      }
      return true;
    }

    /** `config` and `listed` are what the cache answers; no list means that listing failed. */
    method Reconcile(config: Option<Config>, listed: Option<seq<Item>>) returns (ok: bool, ghost order: Order)
      modifies server
      ensures config.None? || listed.None? ==> server.api == old(server.api) && ok == config.None?
      ensures config.Some? && listed.Some? ==>
                && IsOrder(order, ByName(listed.value), Wants(config.value))
                && (server.api, server.fates, ok)
                   == ConfigRun(old(server.api), old(server.fates), config.value, listed.value, order)
    {
      order := Order([], [], []);
      if config.None? {
        return true, order;
      }
      if listed.None? {
        return false, order;
      }
      var current := CurrentByName(listed.value);
      var desired := DesiredByName(config.value.publications);
      forall n | n in current
        ensures PubName(current[n].o.body) == n
      {
        ByNameAt(listed.value, n);
      }
      var create, updateCurrent, updateDesired := CreatesAndUpdates(current, desired);
      var delete := Deletes(current, desired);
      order := Order(NamesIn(create), NamesIn(updateDesired), NamesOfItems(delete));
      ok := CreatePublications(config.value, create);
      if !ok {
        return false, order;
      }
      ok := UpdatePublications(config.value, updateCurrent, updateDesired);
      if !ok {
        return false, order;
      }
      ok := DeletePublications(delete);
    }
  }
}
