/**
 The Kubernetes API server's store of PostgresPublication objects. The rules in this file are assumptions:
 Create fails on an existing name, Update fails when the version does not match, Delete only marks an
 object that has finalizers, a marked object vanishes with its last finalizer, and an update that changes
 nothing leaves the version alone.
 */
module Kube {
  import opened Wrappers
  import opened Specs
  import opened Postgres

  datatype OwnerRef = OwnerRef(apiVersion: string, kind: string, name: string, controller: bool)

  /** PostgresPublicationSpec. */
  datatype ResourceSpec = ResourceSpec(ref: PostgresRef, publication: Publication)

  /** Everything about an object but its identity and version. */
  datatype Body = Body(owners: seq<OwnerRef>, spec: ResourceSpec, finalizers: seq<string>, deleting: bool)

  datatype Obj = Obj(uid: nat, version: nat, body: Body)

  /** Objects by name; the clock hands out identities and versions. */
  datatype Api = Api(objs: map<string, Obj>, clock: nat)

  function BodiesOf(api: Api): map<string, Body> {
    map key | key in api.objs :: api.objs[key].body
  }

  // What a request does to the object under one name, at a given clock, and whether it succeeds.

  function CreateAt(o: Option<Obj>, clock: nat, body: Body): (Option<Obj>, bool) {
    if o.Some? then (o, false) else (Some(Obj(clock, clock, body.(deleting := false))), true)
  }

  function UpdateAt(o: Option<Obj>, clock: nat, update: Obj): (Option<Obj>, bool) {
    if o.None? || o.value.uid != update.uid || o.value.version != update.version then (o, false)
    else
      var body := update.body.(deleting := o.value.body.deleting);
      if body == o.value.body then (o, true)
      else if body.deleting && body.finalizers == [] then (None, true)
      else (Some(Obj(update.uid, clock, body)), true)
  }

  function DeleteAt(o: Option<Obj>, clock: nat): (Option<Obj>, bool) {
    if o.None? then (o, false)
    else if o.value.body.finalizers == [] then (None, true)
    else if o.value.body.deleting then (o, true)
    else (Some(Obj(o.value.uid, clock, o.value.body.(deleting := true))), true)
  }

  function WithObject(api: Api, key: string, o: Option<Obj>): Api {
    Api(Put(api.objs, key, o), api.clock + 1)
  }

  /** A request under a fate: what the server holds afterwards and whether the caller sees success. */
  function Answer(api: Api, fate: Fate, key: string, r: (Option<Obj>, bool)): (Api, bool) {
    if fate == Lost then (api, false) else (WithObject(api, key, r.0), r.1 && fate == Delivered)
  }

  class ApiServer {
    var api: Api
    var fates: seq<Fate>

    constructor (api: Api, fates: seq<Fate>)
      ensures this.api == api && this.fates == fates
    {
      this.api, this.fates := api, fates;
    }

    method Create(key: string, body: Body) returns (ok: bool)
      modifies this
      ensures (api, ok) == Answer(old(api), Next(old(fates)), key,
                                  CreateAt(Find(old(api).objs, key), old(api).clock, body))
      ensures fates == Later(old(fates))
    {
      var (after, answer) := Answer(api, Next(fates), key, CreateAt(Find(api.objs, key), api.clock, body));
      api, ok := after, answer;
      fates := Later(fates);
    }

    /** On success the caller's object becomes the stored one, if it is still stored. */
    method Update(key: string, update: Obj) returns (ok: bool, updated: Obj)
      modifies this
      ensures (api, ok) == Answer(old(api), Next(old(fates)), key,
                                  UpdateAt(Find(old(api).objs, key), old(api).clock, update))
      ensures updated == if ok && key in api.objs then api.objs[key] else update
      ensures fates == Later(old(fates))
    {
      var (after, answer) := Answer(api, Next(fates), key, UpdateAt(Find(api.objs, key), api.clock, update));
      api, ok := after, answer;
      updated := if ok && key in api.objs then api.objs[key] else update;
      fates := Later(fates);
    }

    method Delete(key: string) returns (ok: bool)
      modifies this
      ensures (api, ok) == Answer(old(api), Next(old(fates)), key, DeleteAt(Find(old(api).objs, key), old(api).clock))
      ensures fates == Later(old(fates))
    {
      var (after, answer) := Answer(api, Next(fates), key, DeleteAt(Find(api.objs, key), api.clock));
      api, ok := after, answer;
      fates := Later(fates);
    }
  }
}
