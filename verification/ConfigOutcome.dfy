/**
 A run of the config controller on an up-to-date list is one of the runs of ConfigDiff: it gets through a
 part of the creations, then of the updates, then of the deletions. Without faults it succeeds exactly when
 no names collide.
 */
module ConfigOutcome {
  import opened Wrappers
  import opened Specs
  import opened Postgres
  import opened Kube
  import opened ConfigDiff
  import opened ConfigController
  import opened ConfigRuns

  /** The list shows exactly the objects the config owns, each as it is now. */
  ghost predicate UpToDate(api: Api, config: string, listed: seq<Item>) {
    && KeysDiffer(listed)
    && (forall i :: 0 <= i < |listed| ==>
        Find(api.objs, listed[i].key) == Some(listed[i].o) && Owned(listed[i].o.body, config))
    && (forall r :: r in api.objs && Owned(api.objs[r].body, config) ==>
        exists i :: 0 <= i < |listed| && listed[i].key == r)
  }

  /** The API server never keeps a marked object without finalizers. */
  predicate Settled(api: Api) {
    forall r :: r in api.objs && api.objs[r].body.deleting ==> api.objs[r].body.finalizers != []
  }

  // ---------------------------------------------------------------------------------------------------
  // The loops, object by object
  // ---------------------------------------------------------------------------------------------------

  /** The first `k` publications have been created, under names that were free, and nothing else has changed. */
  predicate Created(before: Api, after: Api, cfg: Config, publications: seq<Publication>, k: nat) {
    && k <= |publications|
    && (forall r :: r in before.objs ==> r in after.objs && after.objs[r] == before.objs[r])
    && (forall i :: 0 <= i < k ==>
          var r := ResourceName(cfg.name, publications[i].name);
          r !in before.objs && r in after.objs && after.objs[r].body == NewBody(cfg, publications[i]))
    && (forall r :: r in after.objs && r !in before.objs ==>
        exists i :: 0 <= i < k && r == ResourceName(cfg.name, publications[i].name))
  }

  lemma CreatedFirst(before: Api, middle: Api, after: Api, cfg: Config, publications: seq<Publication>, k: nat)
    requires publications != []
    requires Created(before, middle, cfg, publications, 1) && Created(middle, after, cfg, publications[1..], k)
    ensures Created(before, after, cfg, publications, k + 1)
  {
    forall i | 0 <= i < k + 1
      ensures var r := ResourceName(cfg.name, publications[i].name);
              r !in before.objs && r in after.objs && after.objs[r].body == NewBody(cfg, publications[i])
    {
      if i > 0 {
        assert publications[1..][i - 1] == publications[i];
      }
    }
    forall r | r in after.objs && r !in before.objs
      ensures exists i :: 0 <= i < k + 1 && r == ResourceName(cfg.name, publications[i].name)
    {
      if r !in middle.objs {
        var i :| 0 <= i < k && r == ResourceName(cfg.name, publications[1..][i].name);
        assert r == ResourceName(cfg.name, publications[i + 1].name);
      }
    }
  }

  lemma {:induction false} CreatesAPrefix(api: Api, fates: seq<Fate>, cfg: Config,
                                          publications: seq<Publication>) returns (k: nat)
    ensures var (after, _, ok) := CreateRun(api, fates, cfg, publications);
            Created(api, after, cfg, publications, k) && (ok ==> k == |publications|)
    decreases |publications|
  {
    k := 0;
    if publications != [] {
      var key := ResourceName(cfg.name, publications[0].name);
      var (after, ok) := Answer(api, Next(fates), key,
                                CreateAt(Find(api.objs, key), api.clock, NewBody(cfg, publications[0])));
      if Next(fates) != Lost && key !in api.objs {
        assert Created(api, after, cfg, publications, 1);
        if ok {
          k := CreatesAPrefix(after, Later(fates), cfg, publications[1..]);
          CreatedFirst(api, after, CreateRun(after, Later(fates), cfg, publications[1..]).0, cfg, publications, k);
          k := k + 1;
        } else {
          k := 1;
        }
      }
    }
  }

  /** Success takes an answer to each of the requests. */
  lemma {:induction false} CreatesAnswered(api: Api, fates: seq<Fate>, cfg: Config, publications: seq<Publication>)
    requires CreateRun(api, fates, cfg, publications).2
    ensures DeliveredUpTo(fates, |publications|)
    ensures CreateRun(api, fates, cfg, publications).1 == Skip(fates, |publications|)
    decreases |publications|
  {
    if publications != [] {
      var key := ResourceName(cfg.name, publications[0].name);
      var (after, ok) := Answer(api, Next(fates), key,
                                CreateAt(Find(api.objs, key), api.clock, NewBody(cfg, publications[0])));
      CreatesAnswered(after, Later(fates), cfg, publications[1..]);
      DeliveredCons(fates, |publications| - 1);
      SkipOne(fates, |publications| - 1);
    }
  }

  lemma {:induction false} CreatesSucceed(api: Api, fates: seq<Fate>, cfg: Config, publications: seq<Publication>)
    requires DeliveredUpTo(fates, |publications|)
    requires forall i :: 0 <= i < |publications| ==> ResourceName(cfg.name, publications[i].name) !in api.objs
    requires forall i, j :: 0 <= i < j < |publications| ==>
               ResourceName(cfg.name, publications[i].name) != ResourceName(cfg.name, publications[j].name)
    ensures CreateRun(api, fates, cfg, publications).2
    decreases |publications|
  {
    if publications != [] {
      var key := ResourceName(cfg.name, publications[0].name);
      var (after, ok) := Answer(api, Next(fates), key,
                                CreateAt(Find(api.objs, key), api.clock, NewBody(cfg, publications[0])));
      forall i | 0 <= i < |publications[1..]|
        ensures ResourceName(cfg.name, publications[1..][i].name) !in after.objs
      {
        assert publications[1..][i] == publications[i + 1];
      }
      DeliveredCons(fates, |publications| - 1);
      CreatesSucceed(after, Later(fates), cfg, publications[1..]);
    }
  }

  predicate Current(api: Api, items: seq<Item>) {
    forall i :: 0 <= i < |items| ==> Find(api.objs, items[i].key) == Some(items[i].o)
  }

  /** The first `k` objects have their new specs, and nothing else has changed. */
  ghost predicate Updated(before: Api, after: Api, cfg: Config, current: seq<Item>, desired: seq<Publication>, k: nat) {
    && k <= |current| == |desired|
    && (forall i :: 0 <= i < k ==>
          current[i].key in after.objs
            && after.objs[current[i].key].body == Respecified(cfg, current[i], desired[i]).body)
    && (forall r :: (forall i :: 0 <= i < k ==> r != current[i].key) ==> Find(after.objs, r) == Find(before.objs, r))
  }

  lemma UpdatedFirst(before: Api, middle: Api, after: Api, cfg: Config, current: seq<Item>, desired: seq<Publication>,
                     k: nat)
    requires current != [] && KeysDiffer(current) && |current| == |desired|
    requires Updated(before, middle, cfg, current, desired, 1)
             && Updated(middle, after, cfg, current[1..], desired[1..], k)
    ensures Updated(before, after, cfg, current, desired, k + 1)
  {
    forall i | 0 <= i < k + 1
      ensures current[i].key in after.objs
              && after.objs[current[i].key].body == Respecified(cfg, current[i], desired[i]).body
    {
      if i > 0 {
        assert current[1..][i - 1] == current[i] && desired[1..][i - 1] == desired[i];
      } else {
        forall j | 0 <= j < k
          ensures current[0].key != current[1..][j].key
        {
          assert current[1..][j] == current[j + 1];
        }
        assert Find(after.objs, current[0].key) == Find(middle.objs, current[0].key);
      }
    }
    forall r | forall i :: 0 <= i < k + 1 ==> r != current[i].key
      ensures Find(after.objs, r) == Find(before.objs, r)
    {
      forall j | 0 <= j < k
        ensures r != current[1..][j].key
      {
        assert current[1..][j] == current[j + 1];
      }
      assert Find(after.objs, r) == Find(middle.objs, r);
    }
  }

  lemma UpdatesOne(api: Api, fate: Fate, cfg: Config, item: Item, p: Publication)
    requires Find(api.objs, item.key) == Some(item.o) && (item.o.body.deleting ==> item.o.body.finalizers != [])
    ensures var (after, ok) :=
            Answer(api, fate, item.key, UpdateAt(Find(api.objs, item.key), api.clock, Respecified(cfg, item, p)));
            && (ok <==> fate == Delivered)
            && (fate == Lost ==> after == api)
            && (fate != Lost ==> Updated(api, after, cfg, [item], [p], 1))
  {
    var (after, ok) := Answer(api, fate, item.key,
                              UpdateAt(Find(api.objs, item.key), api.clock, Respecified(cfg, item, p)));
    forall r | forall i :: 0 <= i < 1 ==> r != [item][i].key
      ensures Find(after.objs, r) == Find(api.objs, r)
    {
      assert r != [item][0].key;
    }
  }

  lemma {:induction false} UpdatesAPrefix(api: Api, fates: seq<Fate>, cfg: Config, current: seq<Item>,
                                          desired: seq<Publication>) returns (k: nat)
    requires |current| == |desired| && Current(api, current) && KeysDiffer(current)
    requires forall i :: 0 <= i < |current| && current[i].o.body.deleting ==> current[i].o.body.finalizers != []
    ensures var (after, _, ok) := UpdateRun(api, fates, cfg, current, desired);
            Updated(api, after, cfg, current, desired, k) && (ok ==> k == |current|)
    decreases |current|
  {
    k := 0;
    if current != [] {
      var key := current[0].key;
      var (after, ok) := Answer(api, Next(fates), key,
                                UpdateAt(Find(api.objs, key), api.clock, Respecified(cfg, current[0], desired[0])));
      UpdatesOne(api, Next(fates), cfg, current[0], desired[0]);
      if Next(fates) != Lost {
        assert Updated(api, after, cfg, current, desired, 1) by {
          UpdatedOne(api, after, cfg, current, desired);
        }
        if ok {
          StillCurrent(api, after, cfg, current, desired);
          k := UpdatesAPrefix(after, Later(fates), cfg, current[1..], desired[1..]);
          UpdatedFirst(api, after, UpdateRun(after, Later(fates), cfg, current[1..], desired[1..]).0, cfg, current,
                       desired, k);
          k := k + 1;
        } else {
          k := 1;
        }
      }
    }
  }

  lemma {:induction false} UpdatesSucceed(api: Api, fates: seq<Fate>, cfg: Config, current: seq<Item>,
                                          desired: seq<Publication>)
    requires |current| == |desired| && Current(api, current) && KeysDiffer(current)
    requires forall i :: 0 <= i < |current| && current[i].o.body.deleting ==> current[i].o.body.finalizers != []
    ensures var (_, left, ok) := UpdateRun(api, fates, cfg, current, desired);
            (ok <==> DeliveredUpTo(fates, |current|)) && (ok ==> left == Skip(fates, |current|))
    decreases |current|
  {
    if current != [] {
      var key := current[0].key;
      var (after, ok) := Answer(api, Next(fates), key,
                                UpdateAt(Find(api.objs, key), api.clock, Respecified(cfg, current[0], desired[0])));
      UpdatesOne(api, Next(fates), cfg, current[0], desired[0]);
      DeliveredCons(fates, |current| - 1);
      SkipOne(fates, |current| - 1);
      if ok {
        UpdatedOne(api, after, cfg, current, desired);
        StillCurrent(api, after, cfg, current, desired);
        UpdatesSucceed(after, Later(fates), cfg, current[1..], desired[1..]);
      }
    }
  }

  lemma UpdatedOne(before: Api, after: Api, cfg: Config, current: seq<Item>, desired: seq<Publication>)
    requires |current| == |desired| > 0 && Updated(before, after, cfg, [current[0]], [desired[0]], 1)
    ensures Updated(before, after, cfg, current, desired, 1)
  {
    forall r | r != current[0].key
      ensures Find(after.objs, r) == Find(before.objs, r)
    {
      assert forall i :: 0 <= i < 1 ==> r != [current[0]][i].key;
    }
    assert [current[0]][0] == current[0];
  }

  lemma StillCurrent(before: Api, after: Api, cfg: Config, current: seq<Item>, desired: seq<Publication>)
    requires current != [] && KeysDiffer(current) && Current(before, current)
             && Updated(before, after, cfg, current, desired, 1)
    ensures Current(after, current[1..])
  {
    forall j | 0 <= j < |current[1..]|
      ensures Find(after.objs, current[1..][j].key) == Some(current[1..][j].o)
    {
      assert current[1..][j] == current[j + 1] && current[0].key != current[j + 1].key;
      assert Find(after.objs, current[j + 1].key) == Find(before.objs, current[j + 1].key);
    }
  }

  /** What a deletion leaves of an object. */
  function Marked(b: Body): Option<Body> {
    if b.finalizers == [] then None else Some(b.(deleting := true))
  }

  function BodyOf(o: Option<Obj>): Option<Body> {
    if o.None? then None else Some(o.value.body)
  }

  /** The first `k` objects are marked, or gone if they have no finalizers, and nothing else has changed. */
  ghost predicate Deleted(before: Api, after: Api, items: seq<Item>, k: nat) {
    && k <= |items|
    && (forall i :: 0 <= i < k ==> BodyOf(Find(after.objs, items[i].key)) == Marked(items[i].o.body))
    && (forall r :: (forall i :: 0 <= i < k ==> r != items[i].key) ==> Find(after.objs, r) == Find(before.objs, r))
  }

  lemma DeletedFirst(before: Api, middle: Api, after: Api, items: seq<Item>, k: nat)
    requires items != [] && KeysDiffer(items)
    requires Deleted(before, middle, items, 1) && Deleted(middle, after, items[1..], k)
    ensures Deleted(before, after, items, k + 1)
  {
    forall i | 0 <= i < k + 1
      ensures BodyOf(Find(after.objs, items[i].key)) == Marked(items[i].o.body)
    {
      if i > 0 {
        assert items[1..][i - 1] == items[i];
      } else {
        forall j | 0 <= j < k
          ensures items[0].key != items[1..][j].key
        {
          assert items[1..][j] == items[j + 1];
        }
        assert Find(after.objs, items[0].key) == Find(middle.objs, items[0].key);
      }
    }
    forall r | forall i :: 0 <= i < k + 1 ==> r != items[i].key
      ensures Find(after.objs, r) == Find(before.objs, r)
    {
      forall j | 0 <= j < k
        ensures r != items[1..][j].key
      {
        assert items[1..][j] == items[j + 1];
      }
      assert Find(after.objs, r) == Find(middle.objs, r);
    }
  }

  lemma DeletedOne(api: Api, fate: Fate, items: seq<Item>)
    requires items != [] && Current(api, items) && KeysDiffer(items) && fate != Lost
    ensures var (after, ok) := Answer(api, fate, items[0].key, DeleteAt(Find(api.objs, items[0].key), api.clock));
            && (ok <==> fate == Delivered)
            && Deleted(api, after, items, 1)
            && Current(after, items[1..])
  {
    var (after, ok) := Answer(api, fate, items[0].key, DeleteAt(Find(api.objs, items[0].key), api.clock));
    forall j | 0 <= j < |items[1..]|
      ensures Find(after.objs, items[1..][j].key) == Some(items[1..][j].o)
    {
      assert items[1..][j] == items[j + 1] && items[0].key != items[j + 1].key;
    }
  }

  lemma {:induction false} DeletesAPrefix(api: Api, fates: seq<Fate>, items: seq<Item>) returns (k: nat)
    requires Current(api, items) && KeysDiffer(items)
    ensures var (after, _, ok) := DeleteRun(api, fates, items);
            && Deleted(api, after, items, k)
            && (ok <==> DeliveredUpTo(fates, |items|))
            && (ok ==> k == |items|)
    decreases |items|
  {
    k := 0;
    if items != [] {
      var key := items[0].key;
      var (after, ok) := Answer(api, Next(fates), key, DeleteAt(Find(api.objs, key), api.clock));
      DeliveredCons(fates, |items| - 1);
      if Next(fates) != Lost {
        DeletedOne(api, Next(fates), items);
        if ok {
          k := DeletesAPrefix(after, Later(fates), items[1..]);
          DeletedFirst(api, after, DeleteRun(after, Later(fates), items[1..]).0, items, k);
          k := k + 1;
        } else {
          k := 1;
        }
      }
    }
  }

  // ---------------------------------------------------------------------------------------------------
  // What an up-to-date list tells
  // ---------------------------------------------------------------------------------------------------

  /** What the run goes by when its list is up to date and names are as they should be. */
  ghost predicate Informed(api: Api, cfg: Config, listed: seq<Item>) {
    UpToDate(api, cfg.name, listed) && Disciplined(BodiesOf(api), cfg.name) && Settled(api)
  }

  lemma InformedNames(api: Api, cfg: Config, listed: seq<Item>)
    requires Informed(api, cfg, listed)
    ensures AllWellNamed(listed, cfg.name)
  {
    forall i | 0 <= i < |listed|
      ensures WellNamed(listed[i], cfg.name)
    {
      assert BodiesOf(api)[listed[i].key] == listed[i].o.body;
    }
  }

  lemma CurrentAt(api: Api, cfg: Config, listed: seq<Item>, n: string)
    requires Informed(api, cfg, listed) && n in ByName(listed)
    ensures var item := ByName(listed)[n];
            && Find(api.objs, item.key) == Some(item.o) && Owned(item.o.body, cfg.name) && PubName(item.o.body) == n
            && item.key == ResourceName(cfg.name, n)
  {
    InformedNames(api, cfg, listed);
    ByNameAt(listed, n);
    var i :| 0 <= i < |listed| && listed[i] == ByName(listed)[n];
  }

  lemma OwnedIsListed(api: Api, cfg: Config, listed: seq<Item>, r: string)
    requires Informed(api, cfg, listed) && r in api.objs && Owned(api.objs[r].body, cfg.name)
    ensures Find(ByName(listed), PubName(api.objs[r].body)) == Some(Item(r, api.objs[r]))
  {
    InformedNames(api, cfg, listed);
    ByNameLosesNothing(listed, cfg.name);
    var i :| 0 <= i < |listed| && listed[i].key == r;
    assert Find(api.objs, listed[i].key) == Some(listed[i].o);
    assert listed[i] == Item(r, api.objs[r]);
  }

  lemma CurrentNames(api: Api, cfg: Config, listed: seq<Item>)
    requires Informed(api, cfg, listed)
    ensures ByName(listed).Keys == OwnedNames(BodiesOf(api), cfg.name)
  {
    var b := BodiesOf(api);
    forall n
      ensures n in ByName(listed) <==> n in OwnedNames(b, cfg.name)
    {
      if n in ByName(listed) {
        CurrentAt(api, cfg, listed, n);
        assert ByName(listed)[n].key in b;
      }
      if n in OwnedNames(b, cfg.name) {
        var r :| r in b && Owned(b[r], cfg.name) && PubName(b[r]) == n;
        OwnedIsListed(api, cfg, listed, r);
      }
    }
  }

  lemma PickedCurrent(api: Api, cfg: Config, listed: seq<Item>, names: seq<string>)
    requires Informed(api, cfg, listed) && Distinct(names) && forall n :: n in names ==> n in ByName(listed)
    ensures var items := Picked(ByName(listed), names);
            && Current(api, items) && KeysDiffer(items)
            && (forall i :: 0 <= i < |items| ==>
                Owned(items[i].o.body, cfg.name) && PubName(items[i].o.body) == names[i])
            && (forall i :: 0 <= i < |items| && items[i].o.body.deleting ==> items[i].o.body.finalizers != [])
  {
    var items := Picked(ByName(listed), names);
    forall i | 0 <= i < |items|
      ensures Find(api.objs, items[i].key) == Some(items[i].o) && Owned(items[i].o.body, cfg.name)
              && PubName(items[i].o.body) == names[i]
    {
      CurrentAt(api, cfg, listed, names[i]);
    }
  }

  function KeysOf(items: seq<Item>, k: nat): set<string>
    requires k <= |items|
  {
    set i | 0 <= i < k :: items[i].key
  }

  lemma PickedKeys(api: Api, cfg: Config, listed: seq<Item>, names: seq<string>, k: nat, r: string)
    requires Informed(api, cfg, listed) && Distinct(names) && forall n :: n in names ==> n in ByName(listed)
    requires k <= |names|
    ensures var keys := KeysOf(Picked(ByName(listed), names), k);
            && (r in keys ==> r in api.objs && Owned(api.objs[r].body, cfg.name) && PubName(api.objs[r].body) in names)
            && (k == |names| && r in api.objs && Owned(api.objs[r].body, cfg.name) ==>
                  PubName(api.objs[r].body) in names ==> r in keys)
  {
    var items := Picked(ByName(listed), names);
    PickedCurrent(api, cfg, listed, names);
    if r in KeysOf(items, k) {
      var i :| 0 <= i < k && items[i].key == r;
      assert Find(api.objs, items[i].key) == Some(items[i].o);
    }
    if k == |names| && r in api.objs && Owned(api.objs[r].body, cfg.name) && PubName(api.objs[r].body) in names {
      OwnedIsListed(api, cfg, listed, r);
      var i :| 0 <= i < |names| && names[i] == PubName(api.objs[r].body);
      assert items[i].key == r;
    }
  }

  lemma UpdateKeys(api: Api, cfg: Config, listed: seq<Item>, order: Order, k: nat)
    requires Informed(api, cfg, listed) && IsOrder(order, ByName(listed), Wants(cfg)) && k <= |order.updates|
    ensures var keys := KeysOf(Picked(ByName(listed), order.updates), k);
            keys <= ToUpdate(BodiesOf(api), cfg) && (k == |order.updates| ==> keys == ToUpdate(BodiesOf(api), cfg))
  {
    forall r
      ensures r in KeysOf(Picked(ByName(listed), order.updates), k) ==> r in ToUpdate(BodiesOf(api), cfg)
      ensures k == |order.updates| && r in ToUpdate(BodiesOf(api), cfg) ==>
              r in KeysOf(Picked(ByName(listed), order.updates), k)
    {
      PickedKeys(api, cfg, listed, order.updates, k, r);
      if r in ToUpdate(BodiesOf(api), cfg) {
        OwnedIsListed(api, cfg, listed, r);
      }
    }
  }

  lemma DeleteKeys(api: Api, cfg: Config, listed: seq<Item>, order: Order, k: nat)
    requires Informed(api, cfg, listed) && IsOrder(order, ByName(listed), Wants(cfg)) && k <= |order.deletes|
    ensures var keys := KeysOf(Picked(ByName(listed), order.deletes), k);
            keys <= ToDelete(BodiesOf(api), cfg) && (k == |order.deletes| ==> keys == ToDelete(BodiesOf(api), cfg))
  {
    forall r
      ensures r in KeysOf(Picked(ByName(listed), order.deletes), k) ==> r in ToDelete(BodiesOf(api), cfg)
      ensures k == |order.deletes| && r in ToDelete(BodiesOf(api), cfg) ==>
              r in KeysOf(Picked(ByName(listed), order.deletes), k)
    {
      PickedKeys(api, cfg, listed, order.deletes, k, r);
      if r in ToDelete(BodiesOf(api), cfg) {
        OwnedIsListed(api, cfg, listed, r);
      }
    }
  }

  function NewIn(before: Api, after: Api): Bodies {
    map r | r in after.objs && r !in before.objs :: after.objs[r].body
  }

  lemma CreatedAt(api: Api, after: Api, cfg: Config, names: seq<string>, k: nat, r: string)
    requires forall n :: n in names ==> n in Wants(cfg)
    requires Created(api, after, cfg, Picked(Wants(cfg), names), k) && r in NewIn(api, after)
    ensures var n := PubName(NewIn(api, after)[r]);
            n in names && r == ResourceName(cfg.name, n) && NewIn(api, after)[r] == NewBody(cfg, Wants(cfg)[n])
  {
    var publications := Picked(Wants(cfg), names);
    var i :| 0 <= i < k && r == ResourceName(cfg.name, publications[i].name);
    assert publications[i] == Wants(cfg)[names[i]];
  }

  lemma AllNamesCreated(api: Api, after: Api, cfg: Config, names: seq<string>, n: string)
    requires forall n :: n in names ==> n in Wants(cfg)
    requires Created(api, after, cfg, Picked(Wants(cfg), names), |names|) && n in names
    ensures n in NamesOf(NewIn(api, after))
  {
    var publications := Picked(Wants(cfg), names);
    var i :| 0 <= i < |names| && names[i] == n;
    assert publications[i].name == n;
    var r := ResourceName(cfg.name, publications[i].name);
    assert r in NewIn(api, after) && PubName(NewIn(api, after)[r]) == n;
  }

  lemma CreatedIsCreation(api: Api, after: Api, cfg: Config, names: seq<string>, k: nat)
    requires Enumerates(names, ToCreate(BodiesOf(api), cfg))
    requires Created(api, after, cfg, Picked(Wants(cfg), names), k)
    ensures var b, created := BodiesOf(api), NewIn(api, after);
            && IsCreation(b, cfg, created)
            && (k == |names| ==> NamesOf(created) == ToCreate(b, cfg))
  {
    var b, created := BodiesOf(api), NewIn(api, after);
    forall r | r in created
      ensures r !in b && PubName(created[r]) in ToCreate(b, cfg) && r == ResourceName(cfg.name, PubName(created[r]))
      ensures created[r] == NewBody(cfg, Wants(cfg)[PubName(created[r])])
    {
      CreatedAt(api, after, cfg, names, k, r);
    }
    if k == |names| {
      forall n | n in ToCreate(b, cfg)
        ensures n in NamesOf(created)
      {
        AllNamesCreated(api, after, cfg, names, n);
      }
    }
  }

  // ---------------------------------------------------------------------------------------------------
  // The run as a whole
  // ---------------------------------------------------------------------------------------------------

  /** How far a run has come: states after the three loops, and how many requests of each were carried out. */
  datatype Trace = Trace(a1: Api, a2: Api, a3: Api, k1: nat, k2: nat, k3: nat)

  ghost predicate IsTrace(api: Api, cfg: Config, listed: seq<Item>, order: Order, t: Trace)
    requires IsOrder(order, ByName(listed), Wants(cfg))
  {
    var current, desired := ByName(listed), Wants(cfg);
    && Created(api, t.a1, cfg, Picked(desired, order.creates), t.k1)
    && Updated(t.a1, t.a2, cfg, Picked(current, order.updates), Picked(desired, order.updates), t.k2)
    && Deleted(t.a2, t.a3, Picked(current, order.deletes), t.k3)
    && (t.k2 > 0 || t.k3 > 0 ==> t.k1 == |order.creates|)
    && (t.k3 > 0 ==> t.k2 == |order.updates|)
  }

  lemma Undone(api: Api, cfg: Config, current: seq<Item>, desired: seq<Publication>, items: seq<Item>)
    requires |current| == |desired|
    ensures Updated(api, api, cfg, current, desired, 0) && Deleted(api, api, items, 0)
  {
  }

  lemma CreationKeepsCurrent(api: Api, after: Api, cfg: Config, publications: seq<Publication>, k: nat,
                             items: seq<Item>)
    requires Created(api, after, cfg, publications, k) && Current(api, items)
    ensures Current(after, items)
  {
    forall i | 0 <= i < |items|
      ensures Find(after.objs, items[i].key) == Some(items[i].o)
    {
      assert items[i].key in api.objs;
    }
  }

  lemma UpdateKeepsOthers(before: Api, after: Api, cfg: Config, current: seq<Item>, desired: seq<Publication>, k: nat,
                          items: seq<Item>)
    requires Updated(before, after, cfg, current, desired, k) && Current(before, items)
    requires forall i, j :: 0 <= i < |current| && 0 <= j < |items| ==> current[i].key != items[j].key
    ensures Current(after, items)
  {
    forall j | 0 <= j < |items|
      ensures Find(after.objs, items[j].key) == Some(items[j].o)
    {
      assert forall i :: 0 <= i < k ==> items[j].key != current[i].key;
      assert Find(after.objs, items[j].key) == Find(before.objs, items[j].key);
    }
  }

  lemma UpdatesAndDeletesDiffer(api: Api, cfg: Config, listed: seq<Item>, order: Order)
    requires Informed(api, cfg, listed) && IsOrder(order, ByName(listed), Wants(cfg))
    ensures var current, items := Picked(ByName(listed), order.updates), Picked(ByName(listed), order.deletes);
            forall i, j :: 0 <= i < |current| && 0 <= j < |items| ==> current[i].key != items[j].key
  {
    PickedCurrent(api, cfg, listed, order.updates);
    PickedCurrent(api, cfg, listed, order.deletes);
    var current, items := Picked(ByName(listed), order.updates), Picked(ByName(listed), order.deletes);
    forall i, j | 0 <= i < |current| && 0 <= j < |items|
      ensures current[i].key != items[j].key
    {
      assert order.updates[i] in order.updates && order.deletes[j] in order.deletes;
      assert Find(api.objs, current[i].key) == Some(current[i].o) && Find(api.objs, items[j].key) == Some(items[j].o);
    }
  }

  /** How many requests a complete run makes. */
  function Requests(order: Order): nat {
    |order.creates| + (|order.updates| + |order.deletes|)
  }

  lemma RunHasTrace(api: Api, fates: seq<Fate>, cfg: Config, listed: seq<Item>, order: Order) returns (t: Trace)
    requires Informed(api, cfg, listed) && IsOrder(order, ByName(listed), Wants(cfg))
    ensures IsTrace(api, cfg, listed, order, t)
    ensures var (after, _, ok) := ConfigRun(api, fates, cfg, listed, order);
            after == t.a3 && (ok ==> t.k1 == |order.creates| && t.k2 == |order.updates| && t.k3 == |order.deletes|)
    ensures ConfigRun(api, fates, cfg, listed, order).2 <==>
              CreateRun(api, fates, cfg, Picked(Wants(cfg), order.creates)).2 && DeliveredUpTo(fates, Requests(order))
  {
    var current, desired := Picked(ByName(listed), order.updates), Picked(Wants(cfg), order.updates);
    var creates, deletes := Picked(Wants(cfg), order.creates), Picked(ByName(listed), order.deletes);
    PickedCurrent(api, cfg, listed, order.updates);
    PickedCurrent(api, cfg, listed, order.deletes);
    var k1 := CreatesAPrefix(api, fates, cfg, creates);
    var (a1, f1, ok1) := CreateRun(api, fates, cfg, creates);
    Undone(a1, cfg, current, desired, deletes);
    DeliveredSplit(fates, |creates|, |current| + |deletes|);
    DeliveredSplit(f1, |current|, |deletes|);
    t := Trace(a1, a1, a1, k1, 0, 0);
    if ok1 {
      CreatesAnswered(api, fates, cfg, creates);
      CreationKeepsCurrent(api, a1, cfg, creates, k1, current);
      CreationKeepsCurrent(api, a1, cfg, creates, k1, deletes);
      var k2 := UpdatesAPrefix(a1, f1, cfg, current, desired);
      UpdatesSucceed(a1, f1, cfg, current, desired);
      var (a2, f2, ok2) := UpdateRun(a1, f1, cfg, current, desired);
      Undone(a2, cfg, current, desired, deletes);
      t := Trace(a1, a2, a2, k1, k2, 0);
      if ok2 {
        UpdatesAndDeletesDiffer(api, cfg, listed, order);
        UpdateKeepsOthers(a1, a2, cfg, current, desired, k2, deletes);
        var k3 := DeletesAPrefix(a2, f2, deletes);
        t := Trace(a1, a2, DeleteRun(a2, f2, deletes).0, k1, k2, k3);
      }
    }
  }

  /** The store after the run, object by object. */
  lemma TraceAt(api: Api, cfg: Config, listed: seq<Item>, order: Order, t: Trace, r: string)
    requires Informed(api, cfg, listed) && IsOrder(order, ByName(listed), Wants(cfg))
             && IsTrace(api, cfg, listed, order, t)
    requires KeysOf(Picked(ByName(listed), order.updates), t.k2) <= ToUpdate(BodiesOf(api), cfg)
    requires KeysOf(Picked(ByName(listed), order.deletes), t.k3) <= ToDelete(BodiesOf(api), cfg)
    ensures var updated, deleted :=
            KeysOf(Picked(ByName(listed), order.updates), t.k2), KeysOf(Picked(ByName(listed), order.deletes), t.k3);
            && (r !in updated && r !in deleted ==> Find(t.a3.objs, r) == Find(t.a1.objs, r))
            && (r in updated ==>
                  && r in api.objs
                  && BodyOf(Find(t.a3.objs, r))
                     == Some(api.objs[r].body.(spec := WantedSpec(cfg, PubName(api.objs[r].body)))))
            && (r in deleted ==> r in api.objs && BodyOf(Find(t.a3.objs, r)) == Marked(api.objs[r].body))
  {
    var current, desired, items :=
      Picked(ByName(listed), order.updates), Picked(Wants(cfg), order.updates), Picked(ByName(listed), order.deletes);
    PickedCurrent(api, cfg, listed, order.updates);
    PickedCurrent(api, cfg, listed, order.deletes);
    if r in KeysOf(current, t.k2) {
      var i :| 0 <= i < t.k2 && current[i].key == r;
      assert Find(api.objs, current[i].key) == Some(current[i].o) && desired[i] == Wants(cfg)[order.updates[i]];
      assert r !in KeysOf(items, t.k3);
      assert Find(t.a3.objs, r) == Find(t.a2.objs, r);
    } else if r in KeysOf(items, t.k3) {
      var i :| 0 <= i < t.k3 && items[i].key == r;
      assert Find(api.objs, items[i].key) == Some(items[i].o);
    } else {
      assert Find(t.a2.objs, r) == Find(t.a1.objs, r);
      assert Find(t.a3.objs, r) == Find(t.a2.objs, r);
    }
  }

  lemma CreatedBodyAt(api: Api, after: Api, cfg: Config, publications: seq<Publication>, k: nat, r: string)
    requires Created(api, after, cfg, publications, k)
    ensures Find(BodiesOf(after), r) == if r in api.objs then Some(api.objs[r].body) else Find(NewIn(api, after), r)
  {
  }

  lemma FindBody(api: Api, r: string)
    ensures Find(BodiesOf(api), r) == BodyOf(Find(api.objs, r))
  {
  }

  lemma TraceIsAfter(api: Api, cfg: Config, listed: seq<Item>, order: Order, t: Trace, r: string)
    requires Informed(api, cfg, listed) && IsOrder(order, ByName(listed), Wants(cfg))
             && IsTrace(api, cfg, listed, order, t)
    requires KeysOf(Picked(ByName(listed), order.updates), t.k2) <= ToUpdate(BodiesOf(api), cfg)
    requires KeysOf(Picked(ByName(listed), order.deletes), t.k3) <= ToDelete(BodiesOf(api), cfg)
    ensures var updated, deleted :=
            KeysOf(Picked(ByName(listed), order.updates), t.k2), KeysOf(Picked(ByName(listed), order.deletes), t.k3);
            Find(BodiesOf(t.a3), r) == Find(After(BodiesOf(api), cfg, NewIn(api, t.a1), updated, deleted), r)
    ensures r in api.objs && !Owned(api.objs[r].body, cfg.name) ==> Find(t.a3.objs, r) == Some(api.objs[r])
  {
    TraceAt(api, cfg, listed, order, t, r);
    CreatedBodyAt(api, t.a1, cfg, Picked(Wants(cfg), order.creates), t.k1, r);
    FindBody(t.a3, r);
    FindBody(t.a1, r);
    FindBody(api, r);
  }

  /**
   With an up-to-date list, whatever fails and in whatever order the maps are gone through, the run is one
   of the runs of ConfigDiff. Objects of other owners stay as they are, versions included.
   */
  lemma InformedRun(api: Api, fates: seq<Fate>, cfg: Config, listed: seq<Item>, order: Order)
    returns (created: Bodies, updated: set<string>, deleted: set<string>)
    requires Informed(api, cfg, listed) && IsOrder(order, ByName(listed), Wants(cfg))
    ensures var (after, _, ok) := ConfigRun(api, fates, cfg, listed, order);
            && IsRun(BodiesOf(api), cfg, created, updated, deleted, ok)
            && BodiesOf(after) == After(BodiesOf(api), cfg, created, updated, deleted)
            && (forall r :: r in api.objs && !Owned(api.objs[r].body, cfg.name) ==>
                Find(after.objs, r) == Some(api.objs[r]))
  {
    var b := BodiesOf(api);
    var t := RunHasTrace(api, fates, cfg, listed, order);
    CurrentNames(api, cfg, listed);
    CreatedIsCreation(api, t.a1, cfg, order.creates, t.k1);
    UpdateKeys(api, cfg, listed, order, t.k2);
    DeleteKeys(api, cfg, listed, order, t.k3);
    created := NewIn(api, t.a1);
    updated := KeysOf(Picked(ByName(listed), order.updates), t.k2);
    deleted := KeysOf(Picked(ByName(listed), order.deletes), t.k3);
    forall r
      ensures Find(BodiesOf(t.a3), r) == Find(After(b, cfg, created, updated, deleted), r)
      ensures r in api.objs && !Owned(api.objs[r].body, cfg.name) ==> Find(t.a3.objs, r) == Some(api.objs[r])
    {
      TraceIsAfter(api, cfg, listed, order, t, r);
    }
    SameMaps(BodiesOf(t.a3), After(b, cfg, created, updated, deleted));
  }

  /** Whatever fails on the way: success means that the store is as the config's list asks for it. */
  lemma SuccessIsAsListed(api: Api, fates: seq<Fate>, cfg: Config, listed: seq<Item>, order: Order)
    requires Informed(api, cfg, listed) && IsOrder(order, ByName(listed), Wants(cfg))
    requires ConfigRun(api, fates, cfg, listed, order).2
    ensures var after := BodiesOf(ConfigRun(api, fates, cfg, listed, order).0);
            && CollisionFree(BodiesOf(api), cfg) && after == Outcome(BodiesOf(api), cfg)
            && AsListed(after, cfg)
  {
    var b := BodiesOf(api);
    var created, updated, deleted := InformedRun(api, fates, cfg, listed, order);
    SuccessIsOutcome(b, cfg, created, updated, deleted);
    OutcomeIsAsListed(b, cfg);
  }

  /**
   And it is reported if and only if no names collide and every request was carried out and answered. A
   run without faults is one where only the names matter.
   */
  lemma SucceedsExactly(api: Api, fates: seq<Fate>, cfg: Config, listed: seq<Item>, order: Order)
    requires Informed(api, cfg, listed) && IsOrder(order, ByName(listed), Wants(cfg))
    ensures var (after, _, ok) := ConfigRun(api, fates, cfg, listed, order);
            && (ok <==> CollisionFree(BodiesOf(api), cfg) && DeliveredUpTo(fates, Requests(order)))
            && (ok ==> BodiesOf(after) == Outcome(BodiesOf(api), cfg) && AsListed(BodiesOf(after), cfg))
  {
    var b := BodiesOf(api);
    var t := RunHasTrace(api, fates, cfg, listed, order);
    if ConfigRun(api, fates, cfg, listed, order).2 {
      SuccessIsAsListed(api, fates, cfg, listed, order);
    }
    if CollisionFree(b, cfg) && DeliveredUpTo(fates, Requests(order)) {
      CurrentNames(api, cfg, listed);
      var publications := Picked(Wants(cfg), order.creates);
      forall i | 0 <= i < |publications|
        ensures publications[i].name in ToCreate(b, cfg) && publications[i].name == order.creates[i]
      {
        assert order.creates[i] in order.creates;
      }
      CreatesSucceed(api, fates, cfg, publications);
    }
  }
}
