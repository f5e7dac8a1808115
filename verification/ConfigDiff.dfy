/**
 What a PostgresConfig asks of the store of PostgresPublication objects, and what a run of its controller,
 complete or not, makes of that store. Objects are taken without their identities and versions.
 */
module ConfigDiff {
  import opened Wrappers
  import opened Specs
  import opened Postgres
  import opened Kube

  const API_VERSION: string := "postgres.glints.com/v1alpha1"
  const KIND: string := "PostgresConfig"

  datatype Config = Config(name: string, ref: PostgresRef, publications: seq<Publication>)

  type Bodies = map<string, Body>

  /** strings.ReplaceAll(s, "_", "-"). */
  function Dashed(s: string): (r: string)
    ensures |r| == |s|
    ensures forall i :: 0 <= i < |s| ==> r[i] == if s[i] == '_' then '-' else s[i]
  {
    if s == "" then "" else [if s[0] == '_' then '-' else s[0]] + Dashed(s[1..])
  }

  function ResourceName(config: string, publication: string): string {
    config + "-" + Dashed(publication)
  }

  /** The config's name, a dash, and the publication's name with every underscore made a dash. */
  lemma ResourceNameSpelled(config: string, publication: string)
    ensures var r := ResourceName(config, publication);
            && |r| == |config| + 1 + |publication| && r[..|config|] == config && r[|config|] == '-'
            && forall i :: 0 <= i < |publication| ==>
                 r[|config| + 1 + i] == if publication[i] == '_' then '-' else publication[i]
  {
  }

  /** metav1.GetControllerOf. */
  function ControllerOf(owners: seq<OwnerRef>): Option<OwnerRef> {
    if owners == [] then None
    else if owners[0].controller then Some(owners[0])
    else ControllerOf(owners[1..])
  }

  /** The index under which an object is listed: the name of the config that controls it, if one does. */
  function OwnerKeys(b: Body): seq<string> {
    match ControllerOf(b.owners)
    case None => []
    case Some(owner) => if owner.apiVersion != API_VERSION || owner.kind != KIND then [] else [owner.name]
  }

  predicate Owned(b: Body, config: string) {
    config in OwnerKeys(b)
  }

  function PubName(b: Body): string {
    b.spec.publication.name
  }

  /** The desired publications by name; of two with one name the later counts. */
  function Desired(publications: seq<Publication>): (d: map<string, Publication>)
    ensures forall n :: n in d ==> d[n].name == n
  {
    if publications == [] then map[]
    else
      var last := publications[|publications| - 1];
      Desired(publications[..|publications| - 1])[last.name := last]
  }

  /** No later entry of the list has the name of this one. */
  predicate IsLast(publications: seq<Publication>, i: nat)
    requires i < |publications|
  {
    forall j :: i < j < |publications| ==> publications[j].name != publications[i].name
  }

  /** Every entry of the list is in the map under its name, up to a later one of the same name; nothing else is. */
  ghost predicate IsByName(publications: seq<Publication>, d: map<string, Publication>) {
    && (forall i :: 0 <= i < |publications| ==> publications[i].name in d)
    && (forall i :: 0 <= i < |publications| && IsLast(publications, i) ==> d[publications[i].name] == publications[i])
    && (forall n :: n in d ==>
          exists i :: 0 <= i < |publications| && IsLast(publications, i) && publications[i].name == n)
  }

  lemma LastSnoc(shorter: seq<Publication>, last: Publication, i: nat)
    requires i <= |shorter|
    ensures IsLast(shorter + [last], i) <==> i == |shorter| || (IsLast(shorter, i) && shorter[i].name != last.name)
  {
    var all := shorter + [last];
    assert all[|shorter|] == last && forall j :: 0 <= j < |shorter| ==> all[j] == shorter[j];
  }

  lemma ByNameSnoc(shorter: seq<Publication>, last: Publication, d: map<string, Publication>)
    requires IsByName(shorter, d)
    ensures IsByName(shorter + [last], d[last.name := last])
  {
    var all := shorter + [last];
    LastSnoc(shorter, last, |shorter|);
    forall i | 0 <= i < |shorter|
      ensures all[i] == shorter[i]
      ensures IsLast(all, i) <==> IsLast(shorter, i) && shorter[i].name != last.name
    {
      LastSnoc(shorter, last, i);
    }
    forall n | n in d && n != last.name
      ensures exists i :: 0 <= i < |all| && IsLast(all, i) && all[i].name == n
    {
      var i :| 0 <= i < |shorter| && IsLast(shorter, i) && shorter[i].name == n;
      assert IsLast(all, i);
    }
  }

  lemma {:induction false} LastEntryCounts(publications: seq<Publication>)
    ensures IsByName(publications, Desired(publications))
  {
    if publications != [] {
      var k := |publications| - 1;
      LastEntryCounts(publications[..k]);
      ByNameSnoc(publications[..k], publications[k], Desired(publications[..k]));
      assert publications[..k] + [publications[k]] == publications;
    }
  }

  function Wants(cfg: Config): map<string, Publication> {
    Desired(cfg.publications)
  }

  function NewBody(cfg: Config, p: Publication): Body {
    Body([OwnerRef(API_VERSION, KIND, cfg.name, true)], ResourceSpec(cfg.ref, p), [], false)
  }

  /** The config owns what it controls: the first controller among the owners is a PostgresConfig of its name. */
  lemma OwnedExactly(b: Body, config: string)
    ensures Owned(b, config) <==>
            exists i :: 0 <= i < |b.owners| && FirstController(b.owners, i)
              && b.owners[i].apiVersion == "postgres.glints.com/v1alpha1" && b.owners[i].kind == "PostgresConfig"
              && b.owners[i].name == config
  {
    ControllerIsFirst(b.owners);
  }

  predicate FirstController(owners: seq<OwnerRef>, i: nat)
    requires i < |owners|
  {
    owners[i].controller && forall j :: 0 <= j < i ==> !owners[j].controller
  }

  lemma {:induction false} ControllerIsFirst(owners: seq<OwnerRef>)
    ensures forall i :: 0 <= i < |owners| && FirstController(owners, i) ==> ControllerOf(owners) == Some(owners[i])
    ensures ControllerOf(owners).Some? ==>
              exists i :: 0 <= i < |owners| && FirstController(owners, i) && ControllerOf(owners) == Some(owners[i])
  {
    if owners != [] {
      ControllerIsFirst(owners[1..]);
      if owners[0].controller {
        assert FirstController(owners, 0);
      } else {
        forall i | 0 < i < |owners|
          ensures FirstController(owners, i) <==> FirstController(owners[1..], i - 1)
        {
          if FirstController(owners[1..], i - 1) {
            forall j | 0 <= j < i
              ensures !owners[j].controller
            {
              assert j > 0 ==> !owners[1..][j - 1].controller;
            }
          }
          if FirstController(owners, i) {
            assert forall j :: 0 <= j < i - 1 ==> owners[1..][j] == owners[j + 1];
          }
        }
      }
    }
  }

  lemma NewBodyOwned(cfg: Config, p: Publication)
    ensures Owned(NewBody(cfg, p), cfg.name)
  {
  }

  lemma OneOwner(b: Body, c: string, d: string)
    requires Owned(b, c) && Owned(b, d)
    ensures c == d
  {
  }

  // ---------------------------------------------------------------------------------------------------
  // The difference between what is and what is asked for
  // ---------------------------------------------------------------------------------------------------

  function OwnedNames(b: Bodies, config: string): set<string> {
    set r | r in b && Owned(b[r], config) :: PubName(b[r])
  }

  /** Publications to create, by publication name. */
  function ToCreate(b: Bodies, cfg: Config): set<string> {
    Wants(cfg).Keys - OwnedNames(b, cfg.name)
  }

  /** Objects to update, by resource name. */
  function ToUpdate(b: Bodies, cfg: Config): set<string> {
    set r | r in b && Owned(b[r], cfg.name) && PubName(b[r]) in Wants(cfg)
  }

  function ToDelete(b: Bodies, cfg: Config): set<string> {
    set r | r in b && Owned(b[r], cfg.name) && PubName(b[r]) !in Wants(cfg)
  }

  function WantedSpec(cfg: Config, name: string): ResourceSpec
    requires name in Wants(cfg)
  {
    ResourceSpec(cfg.ref, Wants(cfg)[name])
  }

  function Stale(b: Bodies, cfg: Config): set<string> {
    set r | r in ToUpdate(b, cfg) && b[r].spec != WantedSpec(cfg, PubName(b[r]))
  }

  function Unmarked(b: Bodies, cfg: Config): set<string> {
    set r | r in ToDelete(b, cfg) && !b[r].deleting
  }

  /** How far the store is from the config. */
  function Gap(b: Bodies, cfg: Config): nat {
    |ToCreate(b, cfg)| + |Stale(b, cfg)| + |Unmarked(b, cfg)|
  }

  /** Owned objects are named after their publication. */
  predicate Disciplined(b: Bodies, config: string) {
    forall r :: r in b && Owned(b[r], config) ==> r == ResourceName(config, PubName(b[r]))
  }

  // ---------------------------------------------------------------------------------------------------
  // Runs
  // ---------------------------------------------------------------------------------------------------

  function NamesOf(created: Bodies): set<string> {
    set r | r in created :: PubName(created[r])
  }

  predicate IsCreation(b: Bodies, cfg: Config, created: Bodies) {
    forall r :: r in created ==>
      && r !in b
      && PubName(created[r]) in ToCreate(b, cfg)
      && r == ResourceName(cfg.name, PubName(created[r]))
      && created[r] == NewBody(cfg, Wants(cfg)[PubName(created[r])])
  }

  /** Some of what there is to do. */
  predicate Partial(b: Bodies, cfg: Config, created: Bodies, updated: set<string>, deleted: set<string>) {
    IsCreation(b, cfg, created) && updated <= ToUpdate(b, cfg) && deleted <= ToDelete(b, cfg)
  }

  /** The store once that much has been done. */
  function After(b: Bodies, cfg: Config, created: Bodies, updated: set<string>, deleted: set<string>): Bodies
    requires updated <= ToUpdate(b, cfg)
  {
    map r | r in b.Keys + created.Keys && !(r in b && r in deleted && b[r].finalizers == []) ::
      if r !in b then created[r]
      else if r in updated then b[r].(spec := WantedSpec(cfg, PubName(b[r])))
      else if r in deleted then b[r].(deleting := true)
      else b[r]
  }

  /** Creations come first, then updates, then deletions, and only a run that did everything succeeds. */
  predicate IsRun(b: Bodies, cfg: Config, created: Bodies, updated: set<string>, deleted: set<string>, ok: bool) {
    && Partial(b, cfg, created, updated, deleted)
    && (ok || updated != {} || deleted != {} ==> NamesOf(created) == ToCreate(b, cfg))
    && (ok || deleted != {} ==> updated == ToUpdate(b, cfg))
    && (ok ==> deleted == ToDelete(b, cfg))
  }

  /** No resource name to be created is taken, or needed twice. */
  predicate CollisionFree(b: Bodies, cfg: Config) {
    && (forall n :: n in ToCreate(b, cfg) ==> ResourceName(cfg.name, n) !in b)
    && (forall m, n :: m in ToCreate(b, cfg) && n in ToCreate(b, cfg) ==>
          ResourceName(cfg.name, m) == ResourceName(cfg.name, n) ==> m == n)
  }

  function Creations(b: Bodies, cfg: Config): Bodies
    requires CollisionFree(b, cfg)
  {
    map n | n in ToCreate(b, cfg) :: ResourceName(cfg.name, n) := NewBody(cfg, Wants(cfg)[n])
  }

  /** The store after a run in which nothing is left undone. */
  function Outcome(b: Bodies, cfg: Config): Bodies
    requires CollisionFree(b, cfg)
  {
    After(b, cfg, Creations(b, cfg), ToUpdate(b, cfg), ToDelete(b, cfg))
  }

  /** What a complete run makes of an object that it finds. */
  function Treated(cfg: Config, b: Body): Option<Body> {
    if !Owned(b, cfg.name) then Some(b)
    else if PubName(b) in Wants(cfg) then Some(b.(spec := WantedSpec(cfg, PubName(b))))
    else if b.finalizers == [] then None
    else Some(b.(deleting := true))
  }

  /** The outcome, object by object. */
  lemma OutcomeAt(b: Bodies, cfg: Config, r: string)
    requires CollisionFree(b, cfg)
    ensures Find(Outcome(b, cfg), r) == if r in b then Treated(cfg, b[r]) else Find(Creations(b, cfg), r)
    ensures r in Creations(b, cfg) ==> r !in b
  {
    if r in Creations(b, cfg) {
      CreationAt(b, cfg, r);
    }
  }

  lemma CreationsAre(b: Bodies, cfg: Config, created: Bodies)
    requires IsCreation(b, cfg, created) && NamesOf(created) == ToCreate(b, cfg)
    ensures CollisionFree(b, cfg) && created == Creations(b, cfg)
  {
    forall n | n in ToCreate(b, cfg)
      ensures ResourceName(cfg.name, n) in created && PubName(created[ResourceName(cfg.name, n)]) == n
    {
      assert n in NamesOf(created);
      var r :| r in created && PubName(created[r]) == n;
    }
  }

  /** The outcome of a successful run does not depend on the order in which it went about its work. */
  lemma SuccessIsOutcome(b: Bodies, cfg: Config, created: Bodies, updated: set<string>, deleted: set<string>)
    requires IsRun(b, cfg, created, updated, deleted, true)
    ensures CollisionFree(b, cfg) && After(b, cfg, created, updated, deleted) == Outcome(b, cfg)
  {
    CreationsAre(b, cfg, created);
  }

  /**
   The store as the list of publications asks for it: under the name made from its name, each has an object
   that the config owns and that has exactly the last such entry and the config's database reference; and
   every other owned object is on its way out.
   */
  ghost predicate AsListed(b: Bodies, cfg: Config) {
    && (forall i :: 0 <= i < |cfg.publications| && IsLast(cfg.publications, i) ==> HasObject(b, cfg, i))
    && (forall r :: r in b && Owned(b[r], cfg.name) ==>
          if exists i :: 0 <= i < |cfg.publications| && cfg.publications[i].name == PubName(b[r])
            then r == ResourceName(cfg.name, PubName(b[r])) else b[r].deleting)
  }

  predicate HasObject(b: Bodies, cfg: Config, i: nat)
    requires i < |cfg.publications|
  {
    var r := ResourceName(cfg.name, cfg.publications[i].name);
    r in b && Owned(b[r], cfg.name) && b[r].spec == ResourceSpec(cfg.ref, cfg.publications[i])
  }

  lemma OutcomeHasObject(b: Bodies, cfg: Config, i: nat)
    requires CollisionFree(b, cfg) && Disciplined(b, cfg.name)
    requires i < |cfg.publications| && IsLast(cfg.publications, i)
    ensures HasObject(Outcome(b, cfg), cfg, i)
  {
    var n := cfg.publications[i].name;
    var r := ResourceName(cfg.name, n);
    LastEntryCounts(cfg.publications);
    OutcomeAt(b, cfg, r);
    NewBodyOwned(cfg, Wants(cfg)[n]);
    if n in ToCreate(b, cfg) {
      assert r in Creations(b, cfg);
      CreationAt(b, cfg, r);
      assert PubName(Creations(b, cfg)[r]) == n;
    } else {
      var s :| s in b && Owned(b[s], cfg.name) && PubName(b[s]) == n;
      assert s == r;
    }
  }

  lemma OutcomeIsAsListed(b: Bodies, cfg: Config)
    requires CollisionFree(b, cfg) && Disciplined(b, cfg.name)
    ensures AsListed(Outcome(b, cfg), cfg)
  {
    var after := Outcome(b, cfg);
    LastEntryCounts(cfg.publications);
    forall i | 0 <= i < |cfg.publications| && IsLast(cfg.publications, i)
      ensures HasObject(after, cfg, i)
    {
      OutcomeHasObject(b, cfg, i);
    }
    forall r | r in after && Owned(after[r], cfg.name)
      ensures if PubName(after[r]) in Wants(cfg) then r == ResourceName(cfg.name, PubName(after[r]))
              else after[r].deleting
    {
      OutcomeAt(b, cfg, r);
      if r !in b {
        CreationAt(b, cfg, r);
      }
    }
  }

  // ---------------------------------------------------------------------------------------------------
  // Progress
  // ---------------------------------------------------------------------------------------------------

  lemma AfterOwned(b: Bodies, cfg: Config, created: Bodies, updated: set<string>, deleted: set<string>)
    requires Partial(b, cfg, created, updated, deleted)
    ensures var after := After(b, cfg, created, updated, deleted);
            && (forall r :: r in after && r in b ==>
                (Owned(after[r], cfg.name) <==> Owned(b[r], cfg.name)) && PubName(after[r]) == PubName(b[r]))
            && (forall r :: r in created ==> r in after && Owned(after[r], cfg.name) && after[r] == created[r])
            && (forall r :: r in b && r !in after ==> r in deleted)
  {
    forall r | r in created
      ensures Owned(created[r], cfg.name)
    {
      NewBodyOwned(cfg, Wants(cfg)[PubName(created[r])]);
    }
  }

  lemma LeftToCreate(b: Bodies, cfg: Config, created: Bodies, updated: set<string>, deleted: set<string>)
    requires Partial(b, cfg, created, updated, deleted)
    ensures ToCreate(After(b, cfg, created, updated, deleted), cfg) == ToCreate(b, cfg) - NamesOf(created)
  {
    var after := After(b, cfg, created, updated, deleted);
    AfterOwned(b, cfg, created, updated, deleted);
    forall n | n in Wants(cfg)
      ensures n in OwnedNames(after, cfg.name) <==> n in OwnedNames(b, cfg.name) || n in NamesOf(created)
    {
      if n in OwnedNames(after, cfg.name) {
        var r :| r in after && Owned(after[r], cfg.name) && PubName(after[r]) == n;
        assert r in b || r in created;
      }
      if n in OwnedNames(b, cfg.name) {
        var r :| r in b && Owned(b[r], cfg.name) && PubName(b[r]) == n;
        assert r !in ToDelete(b, cfg);
        assert r in after;
      }
      if n in NamesOf(created) {
        var r :| r in created && PubName(created[r]) == n;
        assert r in after;
      }
    }
  }

  lemma LeftStale(b: Bodies, cfg: Config, created: Bodies, updated: set<string>, deleted: set<string>)
    requires Partial(b, cfg, created, updated, deleted)
    ensures Stale(After(b, cfg, created, updated, deleted), cfg) == Stale(b, cfg) - updated
  {
    var after := After(b, cfg, created, updated, deleted);
    AfterOwned(b, cfg, created, updated, deleted);
    forall r
      ensures r in Stale(after, cfg) <==> r in Stale(b, cfg) && r !in updated
    {
      if r in created {
        assert after[r].spec == WantedSpec(cfg, PubName(created[r]));
      }
    }
  }

  lemma LeftUnmarked(b: Bodies, cfg: Config, created: Bodies, updated: set<string>, deleted: set<string>)
    requires Partial(b, cfg, created, updated, deleted)
    ensures Unmarked(After(b, cfg, created, updated, deleted), cfg) == Unmarked(b, cfg) - deleted
  {
    var after := After(b, cfg, created, updated, deleted);
    AfterOwned(b, cfg, created, updated, deleted);
    forall r
      ensures r in Unmarked(after, cfg) <==> r in Unmarked(b, cfg) && r !in deleted
    {
    }
  }

  /** What a partial run leaves to do is exactly what it did not do. */
  lemma LeftToDo(b: Bodies, cfg: Config, created: Bodies, updated: set<string>, deleted: set<string>)
    requires Partial(b, cfg, created, updated, deleted)
    ensures var after := After(b, cfg, created, updated, deleted);
            && ToCreate(after, cfg) == ToCreate(b, cfg) - NamesOf(created)
            && Stale(after, cfg) == Stale(b, cfg) - updated
            && Unmarked(after, cfg) == Unmarked(b, cfg) - deleted
  {
    LeftToCreate(b, cfg, created, updated, deleted);
    LeftStale(b, cfg, created, updated, deleted);
    LeftUnmarked(b, cfg, created, updated, deleted);
  }

  /**
   Every creation, every update of a stale object and every deletion of an unmarked object brings the store
   one step closer; updates that change nothing and repeated deletions leave the distance alone.
   */
  lemma EveryCallCounts(b: Bodies, cfg: Config, created: Bodies, updated: set<string>, deleted: set<string>)
    requires Partial(b, cfg, created, updated, deleted)
    ensures Gap(After(b, cfg, created, updated, deleted), cfg)
         == Gap(b, cfg) - |NamesOf(created)| - |Stale(b, cfg) * updated| - |Unmarked(b, cfg) * deleted|
  {
    LeftToDo(b, cfg, created, updated, deleted);
    CreationsOnly(b, cfg, created);
    CountLeft(ToCreate(b, cfg), NamesOf(created), Stale(b, cfg), updated, Unmarked(b, cfg), deleted);
  }

  lemma CreationsOnly(b: Bodies, cfg: Config, created: Bodies)
    requires IsCreation(b, cfg, created)
    ensures NamesOf(created) <= ToCreate(b, cfg)
  {
  }

  lemma CountLeft(a: set<string>, x: set<string>, b: set<string>, y: set<string>, c: set<string>, z: set<string>)
    requires x <= a
    ensures |a - x| + |b - y| + |c - z| == |a| + |b| + |c| - |x| - |b * y| - |c * z|
  {
    Difference(a, x);
    assert a * x == x;
    Difference(b, y);
    Difference(c, z);
  }

  lemma Difference(a: set<string>, b: set<string>)
    ensures |a - b| == |a| - |a * b|
  {
    assert a == (a - b) + (a * b);
  }

  lemma CreationAt(b: Bodies, cfg: Config, r: string)
    requires CollisionFree(b, cfg) && r in Creations(b, cfg)
    ensures var body := Creations(b, cfg)[r];
            PubName(body) in ToCreate(b, cfg) && r == ResourceName(cfg.name, PubName(body))
              && body == NewBody(cfg, Wants(cfg)[PubName(body)])
  {
    var n :| n in ToCreate(b, cfg) && ResourceName(cfg.name, n) == r
      && Creations(b, cfg)[r] == NewBody(cfg, Wants(cfg)[n]);
  }

  lemma CreationsComplete(b: Bodies, cfg: Config)
    requires CollisionFree(b, cfg)
    ensures IsCreation(b, cfg, Creations(b, cfg)) && NamesOf(Creations(b, cfg)) == ToCreate(b, cfg)
  {
    var created := Creations(b, cfg);
    forall r | r in created
      ensures r !in b && PubName(created[r]) in ToCreate(b, cfg) && r == ResourceName(cfg.name, PubName(created[r]))
      ensures PubName(created[r]) in ToCreate(b, cfg) ==> created[r] == NewBody(cfg, Wants(cfg)[PubName(created[r])])
    {
      CreationAt(b, cfg, r);
    }
    forall n | n in ToCreate(b, cfg)
      ensures n in NamesOf(created)
    {
      var r := ResourceName(cfg.name, n);
      assert r in created;
      CreationAt(b, cfg, r);
    }
  }

  lemma NothingToDo(b: Bodies, cfg: Config)
    requires ToCreate(b, cfg) == {} && Stale(b, cfg) == {} && Unmarked(b, cfg) == {}
    requires forall r :: r in b && b[r].deleting ==> b[r].finalizers != []
    ensures CollisionFree(b, cfg) && Outcome(b, cfg) == b
  {
    forall r
      ensures Find(Outcome(b, cfg), r) == Find(b, r)
    {
      OutcomeAt(b, cfg, r);
      if r in b {
        NothingToDoAt(b, cfg, r);
      } else if r in Creations(b, cfg) {
        CreationAt(b, cfg, r);
      }
    }
    SameMaps(Outcome(b, cfg), b);
  }

  lemma NothingToDoAt(b: Bodies, cfg: Config, r: string)
    requires r in b && r !in Stale(b, cfg) && r !in Unmarked(b, cfg)
    requires b[r].deleting ==> b[r].finalizers != []
    ensures Treated(cfg, b[r]) == Some(b[r])
  {
    if Owned(b[r], cfg.name) && PubName(b[r]) in Wants(cfg) {
      assert r in ToUpdate(b, cfg);
    } else if Owned(b[r], cfg.name) {
      assert r in ToDelete(b, cfg);
    }
  }

  /** The store is at the outcome exactly when there is no distance left, and then a run changes nothing. */
  lemma NoGapIsFixed(b: Bodies, cfg: Config)
    requires forall r :: r in b && b[r].deleting ==> b[r].finalizers != []
    ensures Gap(b, cfg) == 0 <==> CollisionFree(b, cfg) && Outcome(b, cfg) == b
  {
    if Gap(b, cfg) == 0 {
      assert ToCreate(b, cfg) == {} && Stale(b, cfg) == {} && Unmarked(b, cfg) == {};
      NothingToDo(b, cfg);
    } else if CollisionFree(b, cfg) && Outcome(b, cfg) == b {
      OutcomeHasNoGap(b, cfg);
    }
  }

  /** A successful run leaves no distance. */
  lemma OutcomeHasNoGap(b: Bodies, cfg: Config)
    requires CollisionFree(b, cfg)
    ensures Gap(Outcome(b, cfg), cfg) == 0
  {
    CreationsComplete(b, cfg);
    LeftToDo(b, cfg, Creations(b, cfg), ToUpdate(b, cfg), ToDelete(b, cfg));
    assert Stale(b, cfg) <= ToUpdate(b, cfg) && Unmarked(b, cfg) <= ToDelete(b, cfg);
    var after := Outcome(b, cfg);
    assert ToCreate(after, cfg) == {} && Stale(after, cfg) == {} && Unmarked(after, cfg) == {};
  }

  lemma StillCollisionFree(b: Bodies, cfg: Config, created: Bodies, updated: set<string>, deleted: set<string>)
    requires CollisionFree(b, cfg) && Partial(b, cfg, created, updated, deleted)
    ensures CollisionFree(After(b, cfg, created, updated, deleted), cfg)
  {
    var after := After(b, cfg, created, updated, deleted);
    LeftToCreate(b, cfg, created, updated, deleted);
    forall n | n in ToCreate(after, cfg)
      ensures ResourceName(cfg.name, n) !in after
    {
      var r := ResourceName(cfg.name, n);
      assert r in created ==> PubName(created[r]) == n && n in NamesOf(created);
    }
  }

  /** What is still to be created is what was to be created and has not been. */
  lemma RemainingCreations(b: Bodies, cfg: Config, created: Bodies, updated: set<string>, deleted: set<string>,
                           r: string)
    requires CollisionFree(b, cfg) && Partial(b, cfg, created, updated, deleted)
    requires CollisionFree(After(b, cfg, created, updated, deleted), cfg)
    ensures var rest, all := Creations(After(b, cfg, created, updated, deleted), cfg), Creations(b, cfg);
            if r in created then Find(all, r) == Some(created[r]) else Find(rest, r) == Find(all, r)
  {
    var after := After(b, cfg, created, updated, deleted);
    var rest, all := Creations(after, cfg), Creations(b, cfg);
    LeftToCreate(b, cfg, created, updated, deleted);
    if r in created {
      var n := PubName(created[r]);
      assert n in ToCreate(b, cfg) && ResourceName(cfg.name, n) in all;
      CreationAt(b, cfg, r);
    } else {
      if r in rest {
        CreationAt(after, cfg, r);
        var n := PubName(rest[r]);
        assert n in ToCreate(b, cfg) && ResourceName(cfg.name, n) in all;
        CreationAt(b, cfg, r);
      }
      if r in all {
        CreationAt(b, cfg, r);
        var n := PubName(all[r]);
        NotYetCreated(b, cfg, created, n);
        assert n in ToCreate(after, cfg) && ResourceName(cfg.name, n) in rest;
      }
    }
  }

  lemma NotYetCreated(b: Bodies, cfg: Config, created: Bodies, n: string)
    requires IsCreation(b, cfg, created) && ResourceName(cfg.name, n) !in created
    ensures n !in NamesOf(created)
  {
  }

  /** A complete run does to an object that a partial run has been at what it would have done to it before. */
  lemma TreatedAnyway(b: Bodies, cfg: Config, created: Bodies, updated: set<string>, deleted: set<string>, r: string)
    requires Partial(b, cfg, created, updated, deleted) && r in b
    ensures var after := After(b, cfg, created, updated, deleted);
            if r in after then Treated(cfg, after[r]) == Treated(cfg, b[r]) else Treated(cfg, b[r]) == None
  {
  }

  lemma NewBodyTreated(cfg: Config, n: string)
    requires n in Wants(cfg)
    ensures Treated(cfg, NewBody(cfg, Wants(cfg)[n])) == Some(NewBody(cfg, Wants(cfg)[n]))
  {
    NewBodyOwned(cfg, Wants(cfg)[n]);
  }

  /** Finishing a run that stopped anywhere gives what an undisturbed run would have given. */
  lemma ResumesAnywhere(b: Bodies, cfg: Config, created: Bodies, updated: set<string>, deleted: set<string>)
    requires CollisionFree(b, cfg) && Partial(b, cfg, created, updated, deleted)
    ensures var after := After(b, cfg, created, updated, deleted);
            CollisionFree(after, cfg) && Outcome(after, cfg) == Outcome(b, cfg)
  {
    var after := After(b, cfg, created, updated, deleted);
    StillCollisionFree(b, cfg, created, updated, deleted);
    forall r
      ensures Find(Outcome(after, cfg), r) == Find(Outcome(b, cfg), r)
    {
      ResumesAt(b, cfg, created, updated, deleted, r);
    }
    SameMaps(Outcome(after, cfg), Outcome(b, cfg));
  }

  lemma ResumesAt(b: Bodies, cfg: Config, created: Bodies, updated: set<string>, deleted: set<string>, r: string)
    requires CollisionFree(b, cfg) && Partial(b, cfg, created, updated, deleted)
    requires CollisionFree(After(b, cfg, created, updated, deleted), cfg)
    ensures Find(Outcome(After(b, cfg, created, updated, deleted), cfg), r) == Find(Outcome(b, cfg), r)
  {
    var after := After(b, cfg, created, updated, deleted);
    OutcomeAt(b, cfg, r);
    OutcomeAt(after, cfg, r);
    RemainingCreations(b, cfg, created, updated, deleted, r);
    if r in b {
      TreatedAnyway(b, cfg, created, updated, deleted, r);
    } else if r in created {
      NewBodyTreated(cfg, PubName(created[r]));
    }
  }

  /** What one run got done before it stopped. */
  datatype Part = Part(created: Bodies, updated: set<string>, deleted: set<string>)

  /** Runs one after another, each doing some of what was left for it to do. */
  predicate Parts(b: Bodies, cfg: Config, parts: seq<Part>)
    decreases |parts|
  {
    parts == [] ||
    (var p := parts[0];
     Partial(b, cfg, p.created, p.updated, p.deleted)
       && Parts(After(b, cfg, p.created, p.updated, p.deleted), cfg, parts[1..]))
  }

  function AfterParts(b: Bodies, cfg: Config, parts: seq<Part>): Bodies
    requires Parts(b, cfg, parts)
    decreases |parts|
  {
    if parts == [] then b
    else
      var p := parts[0];
      AfterParts(After(b, cfg, p.created, p.updated, p.deleted), cfg, parts[1..])
  }

  /** After any number of runs that stopped anywhere, one that does not stop has the outcome of a single run. */
  lemma {:induction false} RetriesConverge(b: Bodies, cfg: Config, parts: seq<Part>)
    requires CollisionFree(b, cfg) && Parts(b, cfg, parts)
    ensures var after := AfterParts(b, cfg, parts);
            CollisionFree(after, cfg) && Outcome(after, cfg) == Outcome(b, cfg) && Gap(after, cfg) <= Gap(b, cfg)
    decreases |parts|
  {
    if parts != [] {
      var p := parts[0];
      ResumesAnywhere(b, cfg, p.created, p.updated, p.deleted);
      EveryCallCounts(b, cfg, p.created, p.updated, p.deleted);
      RetriesConverge(After(b, cfg, p.created, p.updated, p.deleted), cfg, parts[1..]);
    }
  }

  // ---------------------------------------------------------------------------------------------------
  // Names
  // ---------------------------------------------------------------------------------------------------

  predicate AgreeUpToDashes(a: string, b: string) {
    |a| == |b| && forall i :: 0 <= i < |a| ==> a[i] == b[i] || (a[i] in {'_', '-'} && b[i] in {'_', '-'})
  }

  /** Within one config, resource names collide exactly when publication names agree up to '_' and '-'. */
  lemma CollisionsExactly(config: string, a: string, b: string)
    ensures ResourceName(config, a) == ResourceName(config, b) <==> AgreeUpToDashes(a, b)
  {
    var ra, rb := ResourceName(config, a), ResourceName(config, b);
    assert ra[|config| + 1..] == Dashed(a) && rb[|config| + 1..] == Dashed(b);
    if Dashed(a) == Dashed(b) {
      forall i | 0 <= i < |a|
        ensures a[i] == b[i] || (a[i] in {'_', '-'} && b[i] in {'_', '-'})
      {
        assert Dashed(a)[i] == Dashed(b)[i];
      }
    }
  }

  // ---------------------------------------------------------------------------------------------------
  // Isolation and commutation
  // ---------------------------------------------------------------------------------------------------

  /** Objects that the config does not own are left exactly as they are, and only owned ones are added. */
  lemma Isolation(b: Bodies, cfg: Config, created: Bodies, updated: set<string>, deleted: set<string>)
    requires Partial(b, cfg, created, updated, deleted)
    ensures var after := After(b, cfg, created, updated, deleted);
            && (forall r :: r in b && !Owned(b[r], cfg.name) ==> r in after && after[r] == b[r])
            && (forall r :: r in after && r !in b ==> Owned(after[r], cfg.name))
  {
    AfterOwned(b, cfg, created, updated, deleted);
  }

  lemma OtherObjects(b: Bodies, c: Config, d: string, r: string)
    requires c.name != d && CollisionFree(b, c)
    ensures var after := Outcome(b, c);
            && (r in after && Owned(after[r], d) <==> r in b && Owned(b[r], d))
            && (r in b && Owned(b[r], d) ==> r in after && after[r] == b[r])
  {
    OutcomeAt(b, c, r);
    if r in b {
      TreatedOwner(c, b[r], d);
    } else if r in Creations(b, c) {
      CreationAt(b, c, r);
      NewBodyOwned(c, Wants(c)[PubName(Creations(b, c)[r])]);
    }
  }

  lemma TreatedOwner(c: Config, b: Body, d: string)
    requires c.name != d
    ensures Owned(b, d) ==> Treated(c, b) == Some(b)
    ensures Treated(c, b).Some? ==> (Owned(Treated(c, b).value, d) <==> Owned(b, d))
  {
    if Treated(c, b).Some? {
      assert Treated(c, b).value.owners == b.owners;
    }
  }

  /** What a run of one config does is invisible to another whose new names are different. */
  lemma OtherOwns(b: Bodies, c: Config, d: Config)
    requires c.name != d.name && CollisionFree(b, c)
    ensures OwnedNames(Outcome(b, c), d.name) == OwnedNames(b, d.name)
  {
    var after := Outcome(b, c);
    forall r
      ensures r in after && Owned(after[r], d.name) <==> r in b && Owned(b[r], d.name)
      ensures r in b && Owned(b[r], d.name) ==> r in after && after[r] == b[r]
    {
      OtherObjects(b, c, d.name, r);
    }
  }

  lemma OtherUnaffected(b: Bodies, c: Config, d: Config)
    requires c.name != d.name && CollisionFree(b, c) && CollisionFree(b, d)
    requires Creations(b, c).Keys !! Creations(b, d).Keys
    ensures var after := Outcome(b, c);
            ToCreate(after, d) == ToCreate(b, d) && CollisionFree(after, d) && Creations(after, d) == Creations(b, d)
  {
    OtherOwns(b, c, d);
    forall n | n in ToCreate(b, d)
      ensures ResourceName(d.name, n) !in Outcome(b, c)
    {
      var r := ResourceName(d.name, n);
      assert r in Creations(b, d);
      OutcomeAt(b, c, r);
    }
  }

  /** One object under two configs' runs. */
  function TreatedTwice(c: Config, d: Config, b: Body): Option<Body> {
    match Treated(c, b)
    case None => None
    case Some(x) => Treated(d, x)
  }

  lemma TreatmentsCommute(c: Config, d: Config, b: Body)
    requires c.name != d.name
    ensures TreatedTwice(c, d, b) == TreatedTwice(d, c, b)
  {
    if Treated(c, b).Some? {
      assert Treated(c, b).value.owners == b.owners;
    }
    if Treated(d, b).Some? {
      assert Treated(d, b).value.owners == b.owners;
    }
  }

  /** The result of two runs, object by object. */
  lemma BothRunsOld(b: Bodies, c: Config, d: Config, r: string)
    requires CollisionFree(b, c) && CollisionFree(Outcome(b, c), d) && r in b
    requires r !in Creations(Outcome(b, c), d)
    ensures Find(Outcome(Outcome(b, c), d), r) == TreatedTwice(c, d, b[r])
  {
    OutcomeAt(b, c, r);
    OutcomeAt(Outcome(b, c), d, r);
  }

  lemma BothRunsNew(b: Bodies, c: Config, d: Config, r: string)
    requires c.name != d.name && CollisionFree(b, c) && CollisionFree(Outcome(b, c), d) && r !in b
    requires CollisionFree(b, d) && Creations(Outcome(b, c), d) == Creations(b, d)
    ensures Find(Outcome(Outcome(b, c), d), r) == if r in Creations(b, c) then Some(Creations(b, c)[r])
            else Find(Creations(b, d), r)
  {
    OutcomeAt(b, c, r);
    OutcomeAt(Outcome(b, c), d, r);
    if r in Creations(b, c) {
      CreationAt(b, c, r);
      NewBodyOwned(c, Wants(c)[PubName(Creations(b, c)[r])]);
    }
  }

  /** Successful runs of two configs with different new names commute. */
  lemma RunsCommute(b: Bodies, c: Config, d: Config)
    requires c.name != d.name && CollisionFree(b, c) && CollisionFree(b, d)
    requires Creations(b, c).Keys !! Creations(b, d).Keys
    ensures CollisionFree(Outcome(b, c), d) && CollisionFree(Outcome(b, d), c)
    ensures Outcome(Outcome(b, c), d) == Outcome(Outcome(b, d), c)
  {
    OtherUnaffected(b, c, d);
    OtherUnaffected(b, d, c);
    var x, y := Outcome(Outcome(b, c), d), Outcome(Outcome(b, d), c);
    forall r
      ensures Find(x, r) == Find(y, r)
    {
      if r in b {
        OutcomeAt(b, c, r);
        OutcomeAt(b, d, r);
        BothRunsOld(b, c, d, r);
        BothRunsOld(b, d, c, r);
        TreatmentsCommute(c, d, b[r]);
      } else {
        BothRunsNew(b, c, d, r);
        BothRunsNew(b, d, c, r);
        assert r in Creations(b, c) ==> r !in Creations(b, d);
      }
    }
    SameMaps(x, y);
  }

  lemma SameMaps<K, V>(x: map<K, V>, y: map<K, V>)
    requires forall k :: Find(x, k) == Find(y, k)
    ensures x == y
  {
    forall k
      ensures k in x <==> k in y
      ensures k in x ==> x[k] == y[k]
    {
      assert Find(x, k) == Find(y, k);
    }
  }

  // ---------------------------------------------------------------------------------------------------
  // Collisions block
  // ---------------------------------------------------------------------------------------------------

  /** Some publication is to be created under a name that an object already has. */
  predicate Blocked(b: Bodies, cfg: Config, n: string) {
    n in ToCreate(b, cfg) && ResourceName(cfg.name, n) in b
  }

  /**
   Then no run succeeds, none updates or deletes anything, and the block is still there afterwards: as
   creations come first, no retry gets past it. Renaming a publication to a colliding name is such a case.
   */
  lemma BlockedForGood(b: Bodies, cfg: Config, n: string, created: Bodies, updated: set<string>, deleted: set<string>,
                       ok: bool)
    requires Blocked(b, cfg, n) && IsRun(b, cfg, created, updated, deleted, ok)
    ensures !ok && updated == {} && deleted == {}
    ensures var after := After(b, cfg, created, updated, deleted);
            Blocked(after, cfg, n) && forall r :: r in b ==> r in after && after[r] == b[r]
  {
    assert n !in NamesOf(created);
    LeftToDo(b, cfg, created, updated, deleted);
  }

  /** A rename from one spelling to the other is blocked by the object it should replace. */
  lemma CollidingRenameBlocks(b: Bodies, cfg: Config, old_: string, new_: string)
    requires Disciplined(b, cfg.name)
    requires ResourceName(cfg.name, old_) in b && Owned(b[ResourceName(cfg.name, old_)], cfg.name)
    requires PubName(b[ResourceName(cfg.name, old_)]) == old_
    requires old_ != new_ && AgreeUpToDashes(old_, new_) && new_ in Wants(cfg)
    ensures Blocked(b, cfg, new_)
  {
    CollisionsExactly(cfg.name, old_, new_);
    var r := ResourceName(cfg.name, old_);
    assert new_ !in OwnedNames(b, cfg.name);
  }
}
