/**
 What a run of one config may do to objects that it does not own. The list it goes by may be out of date.
 Updates carry a version and cannot go wrong; deletions carry nothing but a name.
 */
module ConfigIsolation {
  import opened Wrappers
  import opened Specs
  import opened Postgres
  import opened Kube
  import opened PublicationProtocol
  import opened ConfigDiff
  import opened ConfigController
  import opened ConfigOutcome
  import opened ConfigSteps

  predicate Matches(o: Obj, update: Obj) {
    o.uid == update.uid && o.version == update.version
  }

  /** An item with the identity and version of a stored object is that object. */
  predicate VersionsIdentify(api: Api, listed: seq<Item>) {
    forall i :: 0 <= i < |listed| && listed[i].key in api.objs ==>
      Matches(api.objs[listed[i].key], listed[i].o) ==> api.objs[listed[i].key] == listed[i].o
  }

  /**
   Over the machine's histories, in which versions only go up, that is so: a listed state with the present
   version is the present state.
   */
  lemma HistoriesIdentify(api: Api, listed: seq<Item>, slots: map<string, Slot>)
    requires forall i :: 0 <= i < |listed| ==>
               var key := listed[i].key;
               key in slots && Inv(slots[key]) && Shows(slots[key], key, api) && Remembered(slots[key], key, listed[i])
    ensures VersionsIdentify(api, listed)
  {
    forall i | 0 <= i < |listed| && listed[i].key in api.objs && Matches(api.objs[listed[i].key], listed[i].o)
      ensures api.objs[listed[i].key] == listed[i].o
    {
      PresentVersion(slots[listed[i].key], listed[i], api.objs[listed[i].key]);
    }
  }

  lemma VersionsRise(h: States, clock: nat, j: nat, k: nat)
    requires Ordered(h, clock) && j < k < |h| && h[j].Some? && h[k].Some?
    ensures h[j].value.version < h[k].value.version
  {
    assert Precedes(h[j].value, h[k].value);
  }

  lemma PresentVersion(s: Slot, item: Item, o: Obj)
    requires Inv(s) && Latest(s) == Some(o) && Some(item.o) in s.history && o.version == item.o.version
    ensures o == item.o
  {
    var last := |s.history| - 1;
    forall j | 0 <= j < last && s.history[j].Some?
      ensures s.history[j].value.version < o.version
    {
      VersionsRise(s.history, s.clock, j, last);
    }
    var j :| 0 <= j < |s.history| && s.history[j] == Some(item.o);
  }

  predicate Foreign(api: Api, config: string, r: string) {
    r in api.objs && !Owned(api.objs[r].body, config)
  }

  lemma {:induction false} UpdatesSpare(api: Api, fates: seq<Fate>, cfg: Config, current: seq<Item>,
                                        desired: seq<Publication>, r: string)
    requires |current| == |desired| && r in api.objs
    requires forall i :: 0 <= i < |current| && current[i].key == r ==> !Matches(api.objs[r], current[i].o)
    ensures Find(UpdateRun(api, fates, cfg, current, desired).0.objs, r) == Some(api.objs[r])
    decreases |current|
  {
    if current != [] {
      var key := current[0].key;
      var (after, ok) := Answer(api, Next(fates), key,
                                UpdateAt(Find(api.objs, key), api.clock, Respecified(cfg, current[0], desired[0])));
      assert Find(after.objs, r) == Some(api.objs[r]);
      UpdatesSpare(after, Later(fates), cfg, current[1..], desired[1..], r);
    }
  }

  lemma {:induction false} DeletesSpare(api: Api, fates: seq<Fate>, items: seq<Item>, r: string)
    requires forall i :: 0 <= i < |items| ==> items[i].key != r
    ensures Find(DeleteRun(api, fates, items).0.objs, r) == Find(api.objs, r)
    decreases |items|
  {
    if items != [] {
      var key := items[0].key;
      var (after, ok) := Answer(api, Next(fates), key, DeleteAt(Find(api.objs, key), api.clock));
      assert Find(after.objs, r) == Find(api.objs, r);
      DeletesSpare(after, Later(fates), items[1..], r);
    }
  }

  predicate MarkedOrGone(api: Api, r: string) {
    r in api.objs ==> api.objs[r].body.deleting
  }

  lemma {:induction false} DeletesStay(api: Api, fates: seq<Fate>, items: seq<Item>, r: string)
    requires MarkedOrGone(api, r)
    ensures MarkedOrGone(DeleteRun(api, fates, items).0, r)
    decreases |items|
  {
    if items != [] {
      var key := items[0].key;
      var (after, ok) := Answer(api, Next(fates), key, DeleteAt(Find(api.objs, key), api.clock));
      assert MarkedOrGone(after, r);
      DeletesStay(after, Later(fates), items[1..], r);
    }
  }

  lemma {:induction false} DeletesHit(api: Api, fates: seq<Fate>, items: seq<Item>, r: string)
    requires DeleteRun(api, fates, items).2 && exists i :: 0 <= i < |items| && items[i].key == r
    ensures MarkedOrGone(DeleteRun(api, fates, items).0, r)
    decreases |items|
  {
    var key := items[0].key;
    var (after, ok) := Answer(api, Next(fates), key, DeleteAt(Find(api.objs, key), api.clock));
    if key == r {
      DeletesStay(after, Later(fates), items[1..], r);
    } else {
      var i :| 0 <= i < |items| && items[i].key == r;
      assert items[1..][i - 1] == items[i];
      DeletesHit(after, Later(fates), items[1..], r);
    }
  }

  /** The names that a run will delete under. */
  function Doomed(listed: seq<Item>, cfg: Config): set<string> {
    set n | n in ByName(listed).Keys - Wants(cfg).Keys :: ByName(listed)[n].key
  }

  lemma DoomedAre(listed: seq<Item>, cfg: Config, order: Order, r: string)
    requires IsOrder(order, ByName(listed), Wants(cfg))
    ensures var items := Picked(ByName(listed), order.deletes);
            r in Doomed(listed, cfg) <==> exists i :: 0 <= i < |items| && items[i].key == r
  {
    var items := Picked(ByName(listed), order.deletes);
    if r in Doomed(listed, cfg) {
      var n :| n in ByName(listed).Keys - Wants(cfg).Keys && ByName(listed)[n].key == r;
      assert n in order.deletes;
      var i :| 0 <= i < |order.deletes| && order.deletes[i] == n;
      assert items[i].key == r;
      assert exists i :: 0 <= i < |items| && items[i].key == r;
    }
    if exists i :: 0 <= i < |items| && items[i].key == r {
      var i :| 0 <= i < |items| && items[i].key == r;
      assert order.deletes[i] in order.deletes;
      DoomedAt(listed, cfg, order.deletes[i]);
    }
  }

  lemma DoomedAt(listed: seq<Item>, cfg: Config, n: string)
    requires n in ByName(listed) && n !in Wants(cfg)
    ensures ByName(listed)[n].key in Doomed(listed, cfg)
  {
    assert n in ByName(listed).Keys - Wants(cfg).Keys;
  }

  lemma ForeignUnmatched(api: Api, cfg: Config, listed: seq<Item>, item: Item, r: string)
    requires VersionsIdentify(api, listed) && Foreign(api, cfg.name, r)
    requires item in listed && Owned(item.o.body, cfg.name) && item.key == r
    ensures !Matches(api.objs[r], item.o)
  {
    var i :| 0 <= i < |listed| && listed[i] == item;
  }

  lemma CreatesSpare(api: Api, fates: seq<Fate>, cfg: Config, publications: seq<Publication>, r: string)
    requires r in api.objs
    ensures Find(CreateRun(api, fates, cfg, publications).0.objs, r) == Some(api.objs[r])
  {
    var k := CreatesAPrefix(api, fates, cfg, publications);
  }

  /** Creations and updates never touch an object of another owner, whatever fails and however old the list. */
  lemma WritesSpareOthers(api: Api, fates: seq<Fate>, cfg: Config, listed: seq<Item>, order: Order, r: string)
    requires IsOrder(order, ByName(listed), Wants(cfg)) && VersionsIdentify(api, listed)
    requires forall item :: item in listed ==> Owned(item.o.body, cfg.name)
    requires Foreign(api, cfg.name, r)
    ensures Find(WritesRun(api, fates, cfg, listed, order).0.objs, r) == Some(api.objs[r])
  {
    var current, desired := Picked(ByName(listed), order.updates), Picked(Wants(cfg), order.updates);
    var creates := Picked(Wants(cfg), order.creates);
    CreatesSpare(api, fates, cfg, creates, r);
    var (a1, f1, ok1) := CreateRun(api, fates, cfg, creates);
    if ok1 {
      forall i | 0 <= i < |current| && current[i].key == r
        ensures !Matches(a1.objs[r], current[i].o)
      {
        ByNameAt(listed, order.updates[i]);
        ForeignUnmatched(api, cfg, listed, current[i], r);
      }
      UpdatesSpare(a1, f1, cfg, current, desired, r);
    }
  }

  /** Nor do deletions, under names that the run does not delete under. */
  lemma OnlyDeletionsCanHit(api: Api, fates: seq<Fate>, cfg: Config, listed: seq<Item>, order: Order, r: string)
    requires IsOrder(order, ByName(listed), Wants(cfg)) && VersionsIdentify(api, listed)
    requires forall item :: item in listed ==> Owned(item.o.body, cfg.name)
    requires Foreign(api, cfg.name, r) && r !in Doomed(listed, cfg)
    ensures Find(ConfigRun(api, fates, cfg, listed, order).0.objs, r) == Some(api.objs[r])
  {
    WritesSpareOthers(api, fates, cfg, listed, order, r);
    var (a, f, ok) := WritesRun(api, fates, cfg, listed, order);
    if ok {
      DoomedAre(listed, cfg, order, r);
      DeletesSpare(a, f, Picked(ByName(listed), order.deletes), r);
    }
  }

  /**
   A successful run leaves an unmarked object of another owner alone if and only if its name is not one
   that the run deletes under. With an up-to-date list it never is; but when an owned object has gone and
   another has taken its name since the list was made, the run deletes the other.
   */
  lemma IsolationExactly(api: Api, fates: seq<Fate>, cfg: Config, listed: seq<Item>, order: Order, r: string)
    requires IsOrder(order, ByName(listed), Wants(cfg)) && VersionsIdentify(api, listed)
    requires forall item :: item in listed ==> Owned(item.o.body, cfg.name)
    requires Foreign(api, cfg.name, r) && !api.objs[r].body.deleting
    requires ConfigRun(api, fates, cfg, listed, order).2
    ensures Find(ConfigRun(api, fates, cfg, listed, order).0.objs, r) == Some(api.objs[r]) <==>
            r !in Doomed(listed, cfg)
  {
    if r in Doomed(listed, cfg) {
      DoomedAre(listed, cfg, order, r);
      var (a, f, ok) := WritesRun(api, fates, cfg, listed, order);
      DeletesHit(a, f, Picked(ByName(listed), order.deletes), r);
    } else {
      OnlyDeletionsCanHit(api, fates, cfg, listed, order, r);
    }
  }

  /** The names an up-to-date list dooms are those of owned objects. */
  lemma UpToDateDoomsOwned(api: Api, cfg: Config, listed: seq<Item>, r: string)
    requires UpToDate(api, cfg.name, listed) && r in Doomed(listed, cfg)
    ensures r in api.objs && Owned(api.objs[r].body, cfg.name)
  {
    var n :| n in ByName(listed).Keys - Wants(cfg).Keys && ByName(listed)[n].key == r;
    ByNameAt(listed, n);
    var i :| 0 <= i < |listed| && listed[i] == ByName(listed)[n];
  }
}
