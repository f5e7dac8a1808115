/**
 What a run of the config controller makes of the API server's store: for every order of its maps, every
 failure and every list it may have been given.
 */
module ConfigRuns {
  import opened Wrappers
  import opened Specs
  import opened Postgres
  import opened Kube
  import opened ConfigDiff
  import opened ConfigController

  // ---------------------------------------------------------------------------------------------------
  // The by-name map
  // ---------------------------------------------------------------------------------------------------

  /** An owned object that is named after its publication. */
  predicate WellNamed(item: Item, config: string) {
    Owned(item.o.body, config) && item.key == ResourceName(config, PubName(item.o.body))
  }

  predicate AllWellNamed(listed: seq<Item>, config: string) {
    forall i :: 0 <= i < |listed| ==> WellNamed(listed[i], config)
  }

  predicate KeysDiffer(items: seq<Item>) {
    forall i, j :: 0 <= i < j < |items| ==> items[i].key != items[j].key
  }

  /** The map from names to listed objects loses none of them: it is one-to-one and onto. */
  lemma ByNameLosesNothing(listed: seq<Item>, config: string)
    requires AllWellNamed(listed, config) && KeysDiffer(listed)
    ensures forall i :: 0 <= i < |listed| ==> Find(ByName(listed), PubName(listed[i].o.body)) == Some(listed[i])
    ensures |ByName(listed)| == |listed|
  {
    forall i | 0 <= i < |listed|
      ensures Find(ByName(listed), PubName(listed[i].o.body)) == Some(listed[i])
    {
      ByNameKeeps(listed, config, i);
    }
    ByNameCounts(listed, config);
  }

  lemma NamesDiffer(listed: seq<Item>, config: string, i: nat, j: nat)
    requires AllWellNamed(listed, config) && KeysDiffer(listed) && i < j < |listed|
    ensures PubName(listed[i].o.body) != PubName(listed[j].o.body)
  {
    assert WellNamed(listed[i], config) && WellNamed(listed[j], config);
  }

  lemma ByNameGrows(listed: seq<Item>, last: Item, name: string)
    ensures Find(ByName(listed + [last]), name) == if name == PubName(last.o.body) then Some(last)
            else Find(ByName(listed), name)
  {
    assert (listed + [last])[..|listed|] == listed;
  }

  lemma {:induction false} ByNameKeeps(listed: seq<Item>, config: string, i: nat)
    requires AllWellNamed(listed, config) && KeysDiffer(listed) && i < |listed|
    ensures Find(ByName(listed), PubName(listed[i].o.body)) == Some(listed[i])
  {
    var n := |listed| - 1;
    var rest := listed[..n];
    assert listed == rest + [listed[n]];
    ByNameGrows(rest, listed[n], PubName(listed[i].o.body));
    if i < n {
      ByNameKeeps(rest, config, i);
      NamesDiffer(listed, config, i, n);
    }
  }

  lemma LastIsNew(listed: seq<Item>, config: string)
    requires listed != [] && AllWellNamed(listed, config) && KeysDiffer(listed)
    ensures PubName(listed[|listed| - 1].o.body) !in ByName(listed[..|listed| - 1])
  {
    ByNameAt(listed[..|listed| - 1], PubName(listed[|listed| - 1].o.body));
  }

  lemma {:induction false} ByNameCounts(listed: seq<Item>, config: string)
    requires AllWellNamed(listed, config) && KeysDiffer(listed)
    ensures |ByName(listed)| == |listed|
  {
    if listed != [] {
      LastIsNew(listed, config);
      ByNameCounts(listed[..|listed| - 1], config);
    }
  }

  // ---------------------------------------------------------------------------------------------------
  // The naming discipline is an invariant
  // ---------------------------------------------------------------------------------------------------

  predicate WellNamedFor(o: Option<Obj>, key: string, config: string) {
    o.Some? && Owned(o.value.body, config) ==> key == ResourceName(config, PubName(o.value.body))
  }

  /** For every config at once. */
  ghost predicate EverywhereNamed(api: Api) {
    forall key, config :: key in api.objs ==> WellNamedFor(Some(api.objs[key]), key, config)
  }

  lemma PuttingWellNamed(api: Api, key: string, o: Option<Obj>)
    requires EverywhereNamed(api) && forall config :: WellNamedFor(o, key, config)
    ensures EverywhereNamed(WithObject(api, key, o))
  {
  }

  lemma CreatingKeepsNames(api: Api, fate: Fate, cfg: Config, p: Publication)
    requires EverywhereNamed(api)
    ensures var key := ResourceName(cfg.name, p.name);
            EverywhereNamed(Answer(api, fate, key, CreateAt(Find(api.objs, key), api.clock, NewBody(cfg, p))).0)
  {
    var key := ResourceName(cfg.name, p.name);
    var (o, ok) := CreateAt(Find(api.objs, key), api.clock, NewBody(cfg, p));
    forall config
      ensures WellNamedFor(o, key, config)
    {
      if key in api.objs {
        assert WellNamedFor(Some(api.objs[key]), key, config);
      } else if Owned(o.value.body, config) {
        NewBodyOwned(cfg, p);
        OneOwner(NewBody(cfg, p), cfg.name, config);
      }
    }
    PuttingWellNamed(api, key, o);
  }

  lemma UpdatingKeepsNames(api: Api, fate: Fate, cfg: Config, item: Item, p: Publication)
    requires EverywhereNamed(api) && WellNamed(item, cfg.name) && p.name == PubName(item.o.body)
    ensures EverywhereNamed(Answer(api, fate, item.key,
                                   UpdateAt(Find(api.objs, item.key), api.clock, Respecified(cfg, item, p))).0)
  {
    var update := Respecified(cfg, item, p);
    var (o, ok) := UpdateAt(Find(api.objs, item.key), api.clock, update);
    forall config
      ensures WellNamedFor(o, item.key, config)
    {
      if o == Find(api.objs, item.key) {
        assert o.Some? ==> WellNamedFor(Some(api.objs[item.key]), item.key, config);
      } else if o.Some? && Owned(o.value.body, config) {
        assert o.value.body.owners == item.o.body.owners;
        assert Owned(item.o.body, config);
        OneOwner(item.o.body, cfg.name, config);
      }
    }
    PuttingWellNamed(api, item.key, o);
  }

  lemma DeletingKeepsNames(api: Api, fate: Fate, key: string)
    requires EverywhereNamed(api)
    ensures EverywhereNamed(Answer(api, fate, key, DeleteAt(Find(api.objs, key), api.clock)).0)
  {
    var (o, ok) := DeleteAt(Find(api.objs, key), api.clock);
    forall config
      ensures WellNamedFor(o, key, config)
    {
      if o.Some? {
        assert WellNamedFor(Some(api.objs[key]), key, config);
        assert o.value.body.owners == api.objs[key].body.owners;
      }
    }
    PuttingWellNamed(api, key, o);
  }

  lemma {:induction false} CreatesKeepNames(api: Api, fates: seq<Fate>, cfg: Config, publications: seq<Publication>)
    requires EverywhereNamed(api)
    ensures EverywhereNamed(CreateRun(api, fates, cfg, publications).0)
    decreases |publications|
  {
    if publications != [] {
      CreatingKeepsNames(api, Next(fates), cfg, publications[0]);
      var key := ResourceName(cfg.name, publications[0].name);
      var (after, ok) := Answer(api, Next(fates), key,
                                CreateAt(Find(api.objs, key), api.clock, NewBody(cfg, publications[0])));
      CreatesKeepNames(after, Later(fates), cfg, publications[1..]);
    }
  }

  lemma {:induction false} UpdatesKeepNames(api: Api, fates: seq<Fate>, cfg: Config, current: seq<Item>,
                                            desired: seq<Publication>)
    requires EverywhereNamed(api) && |current| == |desired|
    requires forall i :: 0 <= i < |current| ==>
             WellNamed(current[i], cfg.name) && desired[i].name == PubName(current[i].o.body)
    ensures EverywhereNamed(UpdateRun(api, fates, cfg, current, desired).0)
    decreases |current|
  {
    if current != [] {
      UpdatingKeepsNames(api, Next(fates), cfg, current[0], desired[0]);
      var key := current[0].key;
      var (after, ok) := Answer(api, Next(fates), key,
                                UpdateAt(Find(api.objs, key), api.clock, Respecified(cfg, current[0], desired[0])));
      UpdatesKeepNames(after, Later(fates), cfg, current[1..], desired[1..]);
    }
  }

  lemma {:induction false} DeletesKeepNames(api: Api, fates: seq<Fate>, items: seq<Item>)
    requires EverywhereNamed(api)
    ensures EverywhereNamed(DeleteRun(api, fates, items).0)
    decreases |items|
  {
    if items != [] {
      var key := items[0].key;
      DeletingKeepsNames(api, Next(fates), key);
      var (after, ok) := Answer(api, Next(fates), key, DeleteAt(Find(api.objs, key), api.clock));
      DeletesKeepNames(after, Later(fates), items[1..]);
    }
  }

  /** Any run of any config, with any faults, on any list of well-named objects, up to date or not. */
  lemma RunKeepsNames(api: Api, fates: seq<Fate>, cfg: Config, listed: seq<Item>, order: Order)
    requires EverywhereNamed(api) && AllWellNamed(listed, cfg.name)
    requires IsOrder(order, ByName(listed), Wants(cfg))
    ensures EverywhereNamed(ConfigRun(api, fates, cfg, listed, order).0)
  {
    var current, desired := ByName(listed), Wants(cfg);
    forall n | n in current
      ensures PubName(current[n].o.body) == n && WellNamed(current[n], cfg.name)
    {
      ByNameAt(listed, n);
    }
    var (a1, f1, ok1) := CreateRun(api, fates, cfg, Picked(desired, order.creates));
    CreatesKeepNames(api, fates, cfg, Picked(desired, order.creates));
    if ok1 {
      UpdatesKeepNames(a1, f1, cfg, Picked(current, order.updates), Picked(desired, order.updates));
      var (a2, f2, ok2) := UpdateRun(a1, f1, cfg, Picked(current, order.updates), Picked(desired, order.updates));
      if ok2 {
        DeletesKeepNames(a2, f2, Picked(current, order.deletes));
      }
    }
  }

  /**
   What can happen to the store: a run of the config controller, or any other change of one object that does
   not take over the config controller's part. Such a change deletes, or leaves the owners and the named
   publication alone, or it creates, edits or renames an object that no config owns.
   */
  datatype Happening =
    | ConfigReconciled(cfg: Config, listed: seq<Item>, order: Order, fates: seq<Fate>)
    | Changed(key: string, o: Option<Obj>, clock: nat)

  /** The listed objects, each as it was at some time; the cache may lag by any amount. */
  ghost predicate Seen(past: seq<Api>, listed: seq<Item>, config: string) {
    forall item :: item in listed ==>
      Owned(item.o.body, config) && exists i :: 0 <= i < |past| && Find(past[i].objs, item.key) == Some(item.o)
  }

  ghost predicate Possible(past: seq<Api>, h: Happening)
    requires past != []
  {
    match h
    case ConfigReconciled(cfg, listed, order, _) => Seen(past, listed, cfg.name)
      && IsOrder(order, ByName(listed), Wants(cfg))
    case Changed(key, o, _) =>
      var before := Find(past[|past| - 1].objs, key);
      o.Some? ==>
        || OwnerKeys(o.value.body) == []
        || (before.Some? && o.value.body.owners == before.value.body.owners
            && PubName(o.value.body) == PubName(before.value.body))
  }

  ghost function Consequence(past: seq<Api>, h: Happening): Api
    requires past != [] && Possible(past, h)
  {
    var now := past[|past| - 1];
    match h
    case ConfigReconciled(cfg, listed, order, fates) => ConfigRun(now, fates, cfg, listed, order).0
    case Changed(key, o, clock) => Api(Put(now.objs, key, o), clock)
  }

  /** The store may start with anything, as long as no config's objects are misnamed. */
  ghost predicate IsHistory(past: seq<Api>, happenings: seq<Happening>)
    decreases |happenings|
  {
    && |past| == |happenings| + 1
    && (happenings == [] ==> EverywhereNamed(past[0]))
    && (happenings != [] ==>
          var n := |happenings| - 1;
          && IsHistory(past[..n + 1], happenings[..n])
          && Possible(past[..n + 1], happenings[n])
          && past[n + 1] == Consequence(past[..n + 1], happenings[n]))
  }

  /**
   Whatever configs are reconciled, edited in between or not, with lists as old as you like and any
   failures: at all times every owned object is named after its publication.
   */
  lemma {:induction false} AlwaysWellNamed(past: seq<Api>, happenings: seq<Happening>, i: nat)
    requires IsHistory(past, happenings) && i < |past|
    ensures EverywhereNamed(past[i])
    decreases |happenings|
  {
    if happenings != [] {
      var n := |happenings| - 1;
      var before := past[..n + 1];
      if i < n + 1 {
        AlwaysWellNamed(before, happenings[..n], i);
      } else {
        forall j | 0 <= j < n + 1
          ensures EverywhereNamed(before[j])
        {
          AlwaysWellNamed(before, happenings[..n], j);
        }
        ConsequenceWellNamed(before, happenings[n]);
      }
    }
  }

  lemma ConsequenceWellNamed(past: seq<Api>, h: Happening)
    requires past != [] && Possible(past, h)
    requires forall j :: 0 <= j < |past| ==> EverywhereNamed(past[j])
    ensures EverywhereNamed(Consequence(past, h))
  {
    var now := past[|past| - 1];
    match h {
      case ConfigReconciled(cfg, listed, order, fates) =>
        SeenWellNamed(past, listed, cfg.name);
        RunKeepsNames(now, fates, cfg, listed, order);
      case Changed(key, o, _) =>
        forall config
          ensures WellNamedFor(o, key, config)
        {
          if o.Some? && OwnerKeys(o.value.body) != [] {
            assert WellNamedFor(Some(now.objs[key]), key, config);
          }
        }
        PuttingWellNamed(now, key, o);
    }
  }

  /** So every list the controller can be given is well named, and its by-name map loses nothing. */
  lemma SeenWellNamed(past: seq<Api>, listed: seq<Item>, config: string)
    requires Seen(past, listed, config) && forall j :: 0 <= j < |past| ==> EverywhereNamed(past[j])
    ensures AllWellNamed(listed, config)
  {
    forall i | 0 <= i < |listed|
      ensures WellNamed(listed[i], config)
    {
      assert listed[i] in listed;
      var j :| 0 <= j < |past| && Find(past[j].objs, listed[i].key) == Some(listed[i].o);
      assert WellNamedFor(Some(past[j].objs[listed[i].key]), listed[i].key, config);
    }
  }
}
