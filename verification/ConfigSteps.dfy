/**
 For each resource, a run of the config controller is a series of edits of the protocol machine; so what
 is proved about all runs of that machine holds with both controllers at work.
 */
module ConfigSteps {
  import opened Wrappers
  import opened Specs
  import opened Postgres
  import opened Kube
  import opened PublicationProtocol
  import opened PublicationLiveness
  import opened ConfigDiff
  import C = ConfigController

  /** The machine agrees with the API server about the resource. */
  predicate Shows(s: Slot, key: string, api: Api) {
    s.history != [] && Latest(s) == Find(api.objs, key) && s.clock == api.clock
  }

  /** A request for another resource, or one that is refused, only moves the clock. */
  function Tick(s: Slot): Step
    requires s.history != []
  {
    if Latest(s).None? then UserDelete
    else UserCreate(Latest(s).value.body)
  }

  lemma TickMovesClock(s: Slot)
    requires s.history != []
    ensures Do(s, Tick(s)) == s.(clock := s.clock + 1)
  {
  }

  /** What the list says about the resource was true at some time. */
  predicate Remembered(s: Slot, key: string, item: C.Item) {
    item.key == key ==> Some(item.o) in s.history
  }

  function CreateStep(s: Slot, key: string, fate: Fate, cfg: Config, p: Publication): seq<Step>
    requires s.history != []
  {
    if fate == Lost then []
    else if ResourceName(cfg.name, p.name) == key then [UserCreate(NewBody(cfg, p))]
    else [Tick(s)]
  }

  /** A tick shows a request that leaves the resource as it is. */
  lemma TickShows(s: Slot, key: string, api: Api, fate: Fate, k: string, r: (Option<Obj>, bool))
    requires Shows(s, key, api) && fate != Lost && (k == key ==> r.0 == Latest(s))
    ensures AllEdits([Tick(s)]) && GentleRun(s, [Tick(s)])
    ensures Shows(Run(s, [Tick(s)]), key, Answer(api, fate, k, r).0)
  {
    RunOne(s, Tick(s));
    GentleOne(s, Tick(s));
    TickMovesClock(s);
  }

  /** A request for the resource is the edit that asks the same. */
  lemma EditShows(s: Slot, key: string, api: Api, fate: Fate, edit: Step, r: (Option<Obj>, bool))
    requires Shows(s, key, api) && fate != Lost && IsEdit(edit)
    requires Do(s, edit) == Stored(s, r.0)
    requires s.worker.Dropped? || Gentle(s, edit)
    ensures AllEdits([edit]) && (!s.worker.Dropped? ==> GentleRun(s, [edit]))
    ensures Shows(Run(s, [edit]), key, Answer(api, fate, key, r).0)
  {
    RunOne(s, edit);
    if !s.worker.Dropped? {
      GentleOne(s, edit);
    }
  }

  lemma CreateIsEdit(s: Slot, key: string, api: Api, fate: Fate, cfg: Config, p: Publication)
    requires Shows(s, key, api)
    ensures var k, steps := ResourceName(cfg.name, p.name), CreateStep(s, key, fate, cfg, p);
            && AllEdits(steps)
            && (!s.worker.Dropped? ==> GentleRun(s, steps))
            && Shows(Run(s, steps), key,
                     Answer(api, fate, k, CreateAt(Find(api.objs, k), api.clock, NewBody(cfg, p))).0)
  {
    var k := ResourceName(cfg.name, p.name);
    var r := CreateAt(Find(api.objs, k), api.clock, NewBody(cfg, p));
    if fate != Lost {
      if k == key {
        EditShows(s, key, api, fate, UserCreate(NewBody(cfg, p)), r);
      } else {
        TickShows(s, key, api, fate, k, r);
      }
    }
  }

  function UpdateStep(s: Slot, key: string, fate: Fate, cfg: Config, item: C.Item, p: Publication): seq<Step>
    requires s.history != []
  {
    if fate == Lost then []
    else if item.key == key && Latest(s) == Some(item.o) then [UserUpdate(C.Respecified(cfg, item, p))]
    else [Tick(s)]
  }

  /** An update from an outdated list is refused, as versions are never used twice. */
  lemma OutdatedRefused(s: Slot, item: C.Item, update: Obj)
    requires Inv(s) && Some(item.o) in s.history && Latest(s) != Some(item.o)
    requires update.uid == item.o.uid && update.version == item.o.version
    ensures UpdateAt(Latest(s), s.clock, update) == (Latest(s), false)
  {
    var i :| 0 <= i < |s.history| && s.history[i] == Some(item.o);
    if Latest(s).Some? {
      assert Precedes(s.history[i].value, s.history[|s.history| - 1].value);
    }
  }

  lemma RespecifiedPermitted(cfg: Config, item: C.Item, p: Publication)
    requires p.name == PubName(item.o.body)
    ensures Permitted(Some(item.o), C.Respecified(cfg, item, p))
  {
  }

  lemma UpdateLeaves(s: Slot, key: string, api: Api, cfg: Config, item: C.Item, p: Publication)
    requires Inv(s) && Shows(s, key, api) && Remembered(s, key, item) && Latest(s) != Some(item.o)
    ensures item.key == key ==>
              UpdateAt(Find(api.objs, key), api.clock, C.Respecified(cfg, item, p)).0 == Latest(s)
  {
    if item.key == key {
      OutdatedRefused(s, item, C.Respecified(cfg, item, p));
    }
  }

  lemma UpdateIsEdit(s: Slot, key: string, api: Api, fate: Fate, cfg: Config, item: C.Item, p: Publication)
    requires Inv(s) && Shows(s, key, api) && Remembered(s, key, item) && p.name == PubName(item.o.body)
    ensures var steps := UpdateStep(s, key, fate, cfg, item, p);
            && AllEdits(steps)
            && (!s.worker.Dropped? ==> GentleRun(s, steps))
            && Shows(Run(s, steps), key,
                     Answer(api, fate, item.key,
                            UpdateAt(Find(api.objs, item.key), api.clock, C.Respecified(cfg, item, p))).0)
  {
    var update := C.Respecified(cfg, item, p);
    var r := UpdateAt(Find(api.objs, item.key), api.clock, update);
    if fate != Lost {
      if item.key == key && Latest(s) == Some(item.o) {
        RespecifiedPermitted(cfg, item, p);
        EditShows(s, key, api, fate, UserUpdate(update), r);
      } else {
        if item.key == key {
          UpdateLeaves(s, key, api, cfg, item, p);
        }
        TickShows(s, key, api, fate, item.key, r);
      }
    }
  }

  function DeleteStep(s: Slot, key: string, fate: Fate, item: C.Item): seq<Step>
    requires s.history != []
  {
    if fate == Lost then [] else if item.key == key then [UserDelete] else [Tick(s)]
  }

  lemma DeleteIsEdit(s: Slot, key: string, api: Api, fate: Fate, item: C.Item)
    requires Shows(s, key, api)
    ensures var steps := DeleteStep(s, key, fate, item);
            && AllEdits(steps)
            && (!s.worker.Dropped? ==> GentleRun(s, steps))
            && Shows(Run(s, steps), key, Answer(api, fate, item.key, DeleteAt(Find(api.objs, item.key), api.clock)).0)
  {
    var r := DeleteAt(Find(api.objs, item.key), api.clock);
    if fate != Lost {
      if item.key == key {
        EditShows(s, key, api, fate, UserDelete, r);
      } else {
        TickShows(s, key, api, fate, item.key, r);
      }
    }
  }

  lemma EditsAppend(s: Slot, a: seq<Step>, b: seq<Step>)
    requires s.history != [] && AllEdits(a) && AllEdits(b)
    ensures AllEdits(a + b) && Run(s, a + b) == Run(Run(s, a), b)
    ensures GentleRun(s, a) && GentleRun(Run(s, a), b) ==> GentleRun(s, a + b)
  {
    RunAppends(s, a, b);
    if GentleRun(s, a) && GentleRun(Run(s, a), b) {
      GentleAppends(s, a, b);
    }
  }

  lemma {:induction false} EditsKeepWorker(s: Slot, edits: seq<Step>)
    requires s.history != [] && AllEdits(edits)
    ensures Run(s, edits).worker == s.worker
    decreases |edits|
  {
    if edits != [] {
      EditsKeepWorker(Do(s, edits[0]), edits[1..]);
    }
  }

  lemma StillRemembered(s: Slot, edits: seq<Step>, key: string, items: seq<C.Item>)
    requires Inv(s) && AllEdits(edits)
    requires forall i :: 0 <= i < |items| ==> Remembered(s, key, items[i])
    ensures Inv(Run(s, edits)) && forall i :: 0 <= i < |items| ==> Remembered(Run(s, edits), key, items[i])
  {
    EditsKeep(s, edits);
    var t := Run(s, edits);
    forall i | 0 <= i < |items| && items[i].key == key
      ensures Some(items[i].o) in t.history
    {
      assert Remembered(s, key, items[i]);
      var j :| 0 <= j < |s.history| && s.history[j] == Some(items[i].o);
      assert t.history[..|s.history|][j] == t.history[j];
    }
  }

  lemma {:induction false} CreatesAreEdits(s: Slot, key: string, api: Api, fates: seq<Fate>, cfg: Config,
                                           publications: seq<Publication>)
    returns (steps: seq<Step>)
    requires Shows(s, key, api)
    ensures AllEdits(steps) && (!s.worker.Dropped? ==> GentleRun(s, steps))
    ensures Shows(Run(s, steps), key, C.CreateRun(api, fates, cfg, publications).0)
    decreases |publications|
  {
    steps := [];
    if publications != [] {
      var k := ResourceName(cfg.name, publications[0].name);
      var (after, ok) := Answer(api, Next(fates), k,
                                CreateAt(Find(api.objs, k), api.clock, NewBody(cfg, publications[0])));
      CreateIsEdit(s, key, api, Next(fates), cfg, publications[0]);
      steps := CreateStep(s, key, Next(fates), cfg, publications[0]);
      EditsKeepWorker(s, steps);
      if ok {
        var more := CreatesAreEdits(Run(s, steps), key, after, Later(fates), cfg, publications[1..]);
        EditsAppend(s, steps, more);
        steps := steps + more;
      }
    }
  }

  lemma {:induction false} UpdatesAreEdits(s: Slot, key: string, api: Api, fates: seq<Fate>, cfg: Config,
                                           current: seq<C.Item>, desired: seq<Publication>)
    returns (steps: seq<Step>)
    requires Inv(s) && Shows(s, key, api) && |current| == |desired|
    requires forall i :: 0 <= i < |current| ==>
             Remembered(s, key, current[i]) && desired[i].name == PubName(current[i].o.body)
    ensures AllEdits(steps) && (!s.worker.Dropped? ==> GentleRun(s, steps))
    ensures Shows(Run(s, steps), key, C.UpdateRun(api, fates, cfg, current, desired).0)
    decreases |current|
  {
    steps := [];
    if current != [] {
      var k := current[0].key;
      var (after, ok) := Answer(api, Next(fates), k,
                                UpdateAt(Find(api.objs, k), api.clock, C.Respecified(cfg, current[0], desired[0])));
      UpdateIsEdit(s, key, api, Next(fates), cfg, current[0], desired[0]);
      steps := UpdateStep(s, key, Next(fates), cfg, current[0], desired[0]);
      EditsKeepWorker(s, steps);
      StillRemembered(s, steps, key, current);
      if ok {
        var more := UpdatesAreEdits(Run(s, steps), key, after, Later(fates), cfg, current[1..], desired[1..]);
        EditsAppend(s, steps, more);
        steps := steps + more;
      }
    }
  }

  lemma {:induction false} DeletesAreEdits(s: Slot, key: string, api: Api, fates: seq<Fate>,
                                           items: seq<C.Item>) returns (steps: seq<Step>)
    requires Shows(s, key, api)
    ensures AllEdits(steps) && (!s.worker.Dropped? ==> GentleRun(s, steps))
    ensures Shows(Run(s, steps), key, C.DeleteRun(api, fates, items).0)
    decreases |items|
  {
    steps := [];
    if items != [] {
      var k := items[0].key;
      var (after, ok) := Answer(api, Next(fates), k, DeleteAt(Find(api.objs, k), api.clock));
      DeleteIsEdit(s, key, api, Next(fates), items[0]);
      steps := DeleteStep(s, key, Next(fates), items[0]);
      EditsKeepWorker(s, steps);
      if ok {
        var more := DeletesAreEdits(Run(s, steps), key, after, Later(fates), items[1..]);
        EditsAppend(s, steps, more);
        steps := steps + more;
      }
    }
  }

  lemma PickedRemembered(s: Slot, key: string, listed: seq<C.Item>, names: seq<string>)
    requires forall item :: item in listed ==> Remembered(s, key, item)
    requires forall n :: n in names ==> n in C.ByName(listed)
    ensures var items := C.Picked(C.ByName(listed), names);
            forall i :: 0 <= i < |items| ==> Remembered(s, key, items[i]) && PubName(items[i].o.body) == names[i]
  {
    forall i | 0 <= i < |names|
      ensures C.ByName(listed)[names[i]] in listed && PubName(C.ByName(listed)[names[i]].o.body) == names[i]
    {
      C.ByNameAt(listed, names[i]);
    }
  }

  /**
   However old the list, whatever fails, in whatever order: for the resource, the run is a series of edits,
   and a harmless one unless it falls between a DROP and the release.
   */
  lemma ConfigRunIsEdits(s: Slot, key: string, api: Api, fates: seq<Fate>, cfg: Config, listed: seq<C.Item>,
                         order: C.Order)
    returns (steps: seq<Step>)
    requires Inv(s) && Shows(s, key, api)
    requires forall item :: item in listed ==> Remembered(s, key, item)
    requires C.IsOrder(order, C.ByName(listed), Wants(cfg))
    ensures AllEdits(steps) && (!s.worker.Dropped? ==> GentleRun(s, steps))
    ensures Inv(Run(s, steps)) && Shows(Run(s, steps), key, C.ConfigRun(api, fates, cfg, listed, order).0)
  {
    var current, desired := C.Picked(C.ByName(listed), order.updates), C.Picked(Wants(cfg), order.updates);
    var creates, deletes := C.Picked(Wants(cfg), order.creates), C.Picked(C.ByName(listed), order.deletes);
    var (a1, f1, ok1) := C.CreateRun(api, fates, cfg, creates);
    steps := CreatesAreEdits(s, key, api, fates, cfg, creates);
    EditsKeepWorker(s, steps);
    PickedRemembered(s, key, listed, order.updates);
    StillRemembered(s, steps, key, current);
    if ok1 {
      var (a2, f2, ok2) := C.UpdateRun(a1, f1, cfg, current, desired);
      var more := UpdatesAreEdits(Run(s, steps), key, a1, f1, cfg, current, desired);
      EditsAppend(s, steps, more);
      steps := steps + more;
      EditsKeepWorker(s, steps);
      if ok2 {
        var last := DeletesAreEdits(Run(s, steps), key, a2, f2, deletes);
        EditsAppend(s, steps, last);
        steps := steps + last;
      }
    }
    RunKeeps(s, steps);
  }

  /** So no run of the config controller orphans a publication, wherever it falls between two calls of a reconcile. */
  lemma ConfigRunOrphansNothing(s: Slot, key: string, api: Api, fates: seq<Fate>, cfg: Config, listed: seq<C.Item>,
                                order: C.Order)
    requires Inv(s) && Shows(s, key, api)
    requires forall item :: item in listed ==> Remembered(s, key, item)
    requires C.IsOrder(order, C.ByName(listed), Wants(cfg))
    requires s.maker.Some?
    ensures var after := C.ConfigRun(api, fates, cfg, listed, order).0;
            && key in after.objs && after.objs[key].uid == s.maker.value
            && Names(after.objs[key]) == s.name && Has(after.objs[key])
  {
    var steps := ConfigRunIsEdits(s, key, api, fates, cfg, listed, order);
    var t := Run(s, steps);
    EditsKeepMaker(s, steps);
    MakerShows(t, key, C.ConfigRun(api, fates, cfg, listed, order).0);
  }

  lemma MakerShows(t: Slot, key: string, api: Api)
    requires Inv(t) && Shows(t, key, api) && t.maker.Some?
    ensures key in api.objs && api.objs[key].uid == t.maker.value
    ensures Names(api.objs[key]) == t.name && Has(api.objs[key])
  {
    assert Latest(t) == t.history[|t.history| - 1];
  }

  lemma {:induction false} EditsKeepMaker(s: Slot, edits: seq<Step>)
    requires s.history != [] && AllEdits(edits)
    ensures Run(s, edits).maker == s.maker && Run(s, edits).name == s.name
    decreases |edits|
  {
    if edits != [] {
      EditsKeepMaker(Do(s, edits[0]), edits[1..]);
    }
  }
}
