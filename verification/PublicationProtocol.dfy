/**
 The protocol between the publication controller, the API server and the database for one resource name and
 one publication name, as a state machine whose steps are single calls.

 The publication an object names does not change while the object exists, and reconciles of one resource do
 not overlap, so the whole system is such machines, interleaved (see Fleet in PublicationSafety). Over time
 a resource name may belong to objects that name different publications. Everything else may
 happen between any two calls: the cache may answer with an old state as long as it does not go back in
 time, the controller may stop anywhere, users and the config controller may create, edit and delete the
 resource, and others may use the database.
 */
module PublicationProtocol {
  import opened Wrappers
  import opened Specs
  import opened SqlGrammar
  import opened Postgres
  import opened PublicationRefinement
  import opened Kube

  const FINALIZER: string := "postgres.glints.com/finalizer"

  predicate Has(o: Obj) {
    FINALIZER in o.body.finalizers
  }

  /** The publication that an object names. */
  function Names(o: Obj): string {
    NameOf(o.body.spec.publication)
  }

  /** controllerutil.AddFinalizer. */
  function WithFinalizer(o: Obj): Obj {
    if Has(o) then o else o.(body := o.body.(finalizers := o.body.finalizers + [FINALIZER]))
  }

  function Without(s: seq<string>, x: string): (r: seq<string>)
    ensures x !in r
    ensures forall y :: y in r ==> y in s
  {
    if s == [] then [] else (if s[0] == x then [] else [s[0]]) + Without(s[1..], x)
  }

  lemma {:induction false} WithoutNone(s: seq<string>, x: string)
    requires x !in s
    ensures Without(s, x) == s
  {
    if s != [] {
      WithoutNone(s[1..], x);
    }
  }

  /** What stands between the removed ones stays, all of it and in its order. */
  lemma {:induction false} WithoutSplits(a: seq<string>, b: seq<string>, x: string)
    requires x !in a
    ensures Without(a + [x] + b, x) == a + Without(b, x)
  {
    if a == [] {
      assert a + [x] + b == [x] + b;
    } else {
      assert (a + [x] + b)[1..] == a[1..] + [x] + b;
      WithoutSplits(a[1..], b, x);
    }
  }

  /** controllerutil.RemoveFinalizer. */
  function WithoutFinalizer(o: Obj): Obj {
    o.(body := o.body.(finalizers := Without(o.body.finalizers, FINALIZER)))
  }

  /** How far a reconcile has come, with the object as it holds it. */
  datatype Worker =
    | Idle
    | Fetched(o: Obj)
    | Ready(o: Obj)
    | Altering(o: Obj)
    | Dropped(o: Obj)

  datatype Slot = Slot(
    name: string,               // the publication name
    history: seq<Option<Obj>>,  // every state the API server has had for the resource; the last is the present one
    clock: nat,
    seen: nat,                  // the state the cache showed last
    entry: Option<Entry>,       // the publication of that name in the catalog
    known: set<TableName>,      // the tables that exist
    worker: Worker,
    maker: Option<nat>,         // the object for which the controller created the publication that exists
    dropped: set<nat>)          // the objects for which it dropped one

  function Latest(s: Slot): Option<Obj>
    requires s.history != []
  {
    s.history[|s.history| - 1]
  }

  datatype Step =
    | Read(index: nat)
    | AddFinalizer
    | Create(statement: Statement)
    | Alter(statement: Statement)
    | Drop
    | DropOther  // the DROP of another publication, which the object named instead
    | Release
    | Stop
    | UserCreate(body: Body)
    | UserUpdate(update: Obj)
    | UserDelete
    | ForeignSql(entry: Option<Entry>, known: set<TableName>)

  /** The API server's state for the resource after a request. */
  function Stored(s: Slot, o: Option<Obj>): Slot
    requires s.history != []
  {
    s.(history := if o == Latest(s) then s.history else s.history + [o], clock := s.clock + 1)
  }

  /** A user's update keeps the name and neither adds nor removes the controller's finalizer. */
  predicate Permitted(o: Option<Obj>, update: Obj) {
    o.Some? ==> (Has(update) <==> Has(o.value)) && Names(update) == Names(o.value)
  }

  /** The reconcile under way is of an object that names this publication. */
  predicate Ours(s: Slot) {
    !s.worker.Idle? && Names(s.worker.o) == s.name
  }

  /** One step; a step that is not enabled changes nothing. */
  function Do(s: Slot, step: Step): (t: Slot)
    requires s.history != []
    ensures t.history != []
  {
    match step
    case Read(i) =>
      if s.worker.Idle? && s.seen <= i < |s.history| then
        s.(seen := i, worker := if s.history[i].None? then Idle else Fetched(s.history[i].value))
      else s
    case AddFinalizer =>
      if s.worker.Fetched? && !s.worker.o.body.deleting then
        if Has(s.worker.o) then s.(worker := Ready(s.worker.o))
        else
          var (o, ok) := UpdateAt(Latest(s), s.clock, WithFinalizer(s.worker.o));
          Stored(s, o).(worker := if ok && o.Some? then Ready(o.value) else Idle)
      else s
    case Create(statement) =>
      if s.worker.Ready? && Ours(s) && statement.CreatePublication? && statement.name == s.name then
        var (entry, code) := EntryAfter(s.entry, s.known, statement);
        if code == None then s.(entry := entry, maker := Some(s.worker.o.uid), worker := Idle)
        else s.(worker := if code == Some(DuplicateObject) then Altering(s.worker.o) else Idle)
      else s
    case Alter(statement) =>
      if s.worker.Altering? && Ours(s) && (statement.SetTables? || statement.SetPublish?)
        && statement.name == s.name then
        var (entry, code) := EntryAfter(s.entry, s.known, statement);
        s.(entry := entry, worker := if code == None then s.worker else Idle)
      else s
    case Drop =>
      if s.worker.Fetched? && Ours(s) && s.worker.o.body.deleting && Has(s.worker.o) then
        if s.entry.Some? then
          s.(entry := None, maker := None, dropped := s.dropped + {s.worker.o.uid}, worker := Dropped(s.worker.o))
        else s.(worker := Idle)
      else s
    case DropOther =>
      if s.worker.Fetched? && !Ours(s) && s.worker.o.body.deleting && Has(s.worker.o) then
        s.(worker := Dropped(s.worker.o))
      else s
    case Release =>
      if s.worker.Dropped? then
        Stored(s, UpdateAt(Latest(s), s.clock, WithoutFinalizer(s.worker.o)).0).(worker := Idle)
      else s
    case Stop => s.(worker := Idle)
    case UserCreate(body) => Stored(s, CreateAt(Latest(s), s.clock, body).0)
    case UserUpdate(update) =>
      if Permitted(Latest(s), update) then Stored(s, UpdateAt(Latest(s), s.clock, update).0) else s
    case UserDelete => Stored(s, DeleteAt(Latest(s), s.clock).0)
    case ForeignSql(entry, known) =>
      s.(entry := entry, known := known, maker := if entry.None? then None else s.maker)
  }

  function Run(s: Slot, steps: seq<Step>): (t: Slot)
    requires s.history != []
    ensures t.history != []
    decreases |steps|
  {
    if steps == [] then s else Run(Do(s, steps[0]), steps[1..])
  }

  lemma {:induction false} RunAppends(s: Slot, a: seq<Step>, b: seq<Step>)
    requires s.history != []
    ensures Run(s, a + b) == Run(Run(s, a), b)
    decreases |a|
  {
    if a == [] {
      assert a + b == b;
    } else {
      var t := Do(s, a[0]);
      assert (a + b)[0] == a[0] && (a + b)[1..] == a[1..] + b;
      assert Run(s, a + b) == Run(t, a[1..] + b) && Run(s, a) == Run(t, a[1..]);
      RunAppends(t, a[1..], b);
    }
  }

  lemma RunFirst(s: Slot, step: Step, rest: seq<Step>)
    requires s.history != []
    ensures Run(s, [step] + rest) == Run(Do(s, step), rest)
  {
    assert ([step] + rest)[1..] == rest;
  }

  lemma RunOne(s: Slot, step: Step)
    requires s.history != []
    ensures Run(s, [step]) == Do(s, step)
  {
    assert Run(Do(s, step), []) == Do(s, step);
  }

  lemma RunTwo(s: Slot, a: Step, b: Step)
    requires s.history != []
    ensures Run(s, [a, b]) == Do(Do(s, a), b)
  {
    RunOne(Do(s, a), b);
    assert [a, b][1..] == [b];
  }

  lemma RunThree(s: Slot, a: Step, b: Step, c: Step)
    requires s.history != []
    ensures Run(s, [a, b, c]) == Do(Do(Do(s, a), b), c)
  {
    RunTwo(Do(s, a), b, c);
    assert [a, b, c][1..] == [b, c];
  }

  // ---------------------------------------------------------------------------------------------------
  // The invariant
  // ---------------------------------------------------------------------------------------------------

  type States = seq<Option<Obj>>

  /** Identities and versions only go up; the mark for deletion and the publication named stay. */
  predicate Ordered(h: States, clock: nat) {
    && (forall j :: 0 <= j < |h| && h[j].Some? ==> h[j].value.uid < clock && h[j].value.version < clock)
    && (forall j, k :: 0 <= j < k < |h| && h[j].Some? && h[k].Some? ==> Precedes(h[j].value, h[k].value))
  }

  predicate Precedes(a: Obj, b: Obj) {
    && a.version < b.version && a.uid <= b.uid
    && (a.uid == b.uid ==> (a.body.deleting ==> b.body.deleting) && Names(a) == Names(b))
  }

  /** From what the cache showed last until now, the name has been held by this one object. */
  predicate HeldBy(h: States, seen: nat, uid: nat) {
    forall k :: seen <= k < |h| ==> h[k].Some? && h[k].value.uid == uid
  }

  predicate IsAnchor(o: Option<Obj>) {
    o.Some? && !o.value.body.deleting && Has(o.value)
  }

  /** An unmarked object with the finalizer, once within the cache's reach, stays and keeps the finalizer. */
  predicate Anchored(h: States, seen: nat) {
    forall j, k :: seen <= j <= k < |h| && IsAnchor(h[j]) ==>
      h[k].Some? && h[k].value.uid == h[j].value.uid && Has(h[k].value)
  }

  /** Objects whose publication was dropped are only ever seen marked again. */
  predicate StayMarked(h: States, seen: nat, clock: nat, dropped: set<nat>) {
    && (forall u :: u in dropped ==> u < clock)
    && (forall k :: seen <= k < |h| && h[k].Some? && h[k].value.uid in dropped ==> h[k].value.body.deleting)
  }

  /** The object is there, names the publication and holds the finalizer, and nothing was dropped for it. */
  predicate Secured(s: Slot, uid: nat, name: string)
    requires s.history != []
  {
    && HeldBy(s.history, s.seen, uid)
    && Latest(s).Some? && Has(Latest(s).value) && Names(Latest(s).value) == name
    && uid !in s.dropped
  }

  predicate WorkerOk(s: Slot)
    requires s.seen < |s.history|
  {
    match s.worker
    case Idle => true
    case Fetched(o) => s.history[s.seen] == Some(o)
    case Ready(o) => Secured(s, o.uid, Names(o))
    case Altering(o) => Secured(s, o.uid, Names(o))
    case Dropped(o) =>
      && s.history[s.seen] == Some(o) && o.body.deleting && Has(o)
      && (Ours(s) ==> s.maker == None && o.uid in s.dropped)
  }

  predicate Inv(s: Slot) {
    && s.seen < |s.history|
    && Ordered(s.history, s.clock)
    && Anchored(s.history, s.seen)
    && StayMarked(s.history, s.seen, s.clock, s.dropped)
    && WorkerOk(s)
    && (s.maker.Some? ==> s.entry.Some? && Secured(s, s.maker.value, s.name))
  }

  /** Nothing has happened yet; the database may already hold a publication of the name. */
  predicate Initial(s: Slot) {
    s.history == [None] && s.seen == 0 && s.worker == Idle && s.maker == None && s.dropped == {}
  }

  lemma InitialInv(s: Slot)
    requires Initial(s)
    ensures Inv(s)
  {
  }

  // ---------------------------------------------------------------------------------------------------
  // Every step keeps it
  // ---------------------------------------------------------------------------------------------------

  /** A conditional update succeeds only when the cache was up to date. */
  lemma VersionMatches(s: Slot, o: Obj)
    requires s.seen < |s.history| && Ordered(s.history, s.clock) && s.history[s.seen] == Some(o)
    requires Latest(s).Some? && Latest(s).value.version == o.version
    ensures s.seen == |s.history| - 1
  {
  }

  /** What the API server may make of the present state: the same object, newer; nothing; or a new object. */
  predicate Follows(before: Option<Obj>, after: Option<Obj>, clock: nat) {
    after.Some? ==>
      && after.value.version == clock
      && if before.None? then after.value.uid == clock
         else
           && after.value.uid == before.value.uid
           && (before.value.body.deleting ==> after.value.body.deleting)
           && Names(after.value) == Names(before.value)
  }

  lemma AppendKeeps(h: States, o: Option<Obj>, seen: nat, clock: nat, dropped: set<nat>)
    requires seen < |h| && Ordered(h, clock) && Anchored(h, seen) && StayMarked(h, seen, clock, dropped)
    requires Follows(h[|h| - 1], o, clock)
    requires (h[|h| - 1].Some? && Has(h[|h| - 1].value) ==> o.Some? && Has(o.value)) ||
             forall j :: seen <= j < |h| ==> !IsAnchor(h[j])
    ensures Ordered(h + [o], clock + 1) && Anchored(h + [o], seen) && StayMarked(h + [o], seen, clock + 1, dropped)
  {
    var last, t := |h| - 1, h + [o];
    forall j, k | 0 <= j < k < |t| && t[j].Some? && t[k].Some?
      ensures Precedes(t[j].value, t[k].value)
    {
      if k == |h| && j < last && h[last].Some? {
        assert Precedes(h[j].value, h[last].value);
      }
    }
    forall j, k | seen <= j <= k < |t| && IsAnchor(t[j])
      ensures t[k].Some? && t[k].value.uid == t[j].value.uid && Has(t[k].value)
    {
      if k == |h| && j < |h| {
        assert h[last].Some? && h[last].value.uid == h[j].value.uid && Has(h[last].value);
      }
    }
    forall k | seen <= k < |t| && t[k].Some? && t[k].value.uid in dropped
      ensures t[k].value.body.deleting
    {
      if k == |h| {
        assert h[last].Some?;
      }
    }
  }

  /** A request that leaves the present object's finalizer alone, or meets no object that could be anchored. */
  lemma StoredKeeps(s: Slot, o: Option<Obj>)
    requires Inv(s)
    requires o == Latest(s) || Follows(Latest(s), o, s.clock)
    requires Latest(s).Some? && Has(Latest(s).value) ==> o.Some? && Has(o.value)
    ensures Inv(Stored(s, o))
  {
    if o != Latest(s) {
      AppendKeeps(s.history, o, s.seen, s.clock, s.dropped);
    }
  }

  lemma WithFinalizerHas(o: Obj)
    ensures Has(WithFinalizer(o))
  {
    if !Has(o) {
      assert WithFinalizer(o).body.finalizers[|o.body.finalizers|] == FINALIZER;
    }
  }

  /** A successful first update leaves the object, with the finalizer, as the present state. */
  lemma FinalizerAdded(s: Slot, o: Obj)
    requires Inv(s) && s.worker == Fetched(o) && !o.body.deleting && !Has(o)
    requires UpdateAt(Latest(s), s.clock, WithFinalizer(o)).1
    ensures s.seen == |s.history| - 1 && Latest(s) == Some(o)
    ensures UpdateAt(Latest(s), s.clock, WithFinalizer(o)).0 == Some(Obj(o.uid, s.clock, WithFinalizer(o).body))
  {
    VersionMatches(s, o);
    WithFinalizerHas(o);
  }

  lemma FinalizerFound(s: Slot)
    requires Inv(s) && s.worker.Fetched? && !s.worker.o.body.deleting && Has(s.worker.o)
    ensures Inv(s.(worker := Ready(s.worker.o)))
  {
    var o := s.worker.o;
    assert IsAnchor(s.history[s.seen]);
    if s.seen < |s.history| - 1 {
      assert Precedes(o, s.history[|s.history| - 1].value);
    }
  }

  lemma FinalizerAccepted(s: Slot)
    requires Inv(s) && s.worker.Fetched? && !s.worker.o.body.deleting && !Has(s.worker.o)
    requires UpdateAt(Latest(s), s.clock, WithFinalizer(s.worker.o)).1
    ensures Inv(Do(s, AddFinalizer))
  {
    var o := s.worker.o;
    FinalizerAdded(s, o);
    var after := Obj(o.uid, s.clock, WithFinalizer(o).body);
    FinalizerSecures(s, o, after);
    assert Do(s, AddFinalizer)
        == s.(history := s.history + [Some(after)], clock := s.clock + 1, worker := Ready(after)) by {
      WithFinalizerHas(o);
    }
  }

  /** A refused request moves the clock, and the reconcile ends. */
  lemma RefusedKeeps(s: Slot)
    requires Inv(s)
    ensures Inv(Stored(s, Latest(s)).(worker := Idle))
  {
  }

  lemma AddFinalizerKeeps(s: Slot)
    requires Inv(s)
    ensures Inv(Do(s, AddFinalizer))
  {
    if s.worker.Fetched? && !s.worker.o.body.deleting {
      if Has(s.worker.o) {
        FinalizerFound(s);
      } else if UpdateAt(Latest(s), s.clock, WithFinalizer(s.worker.o)).1 {
        FinalizerAccepted(s);
      } else {
        RefusedKeeps(s);
      }
    }
  }

  lemma FinalizerSecures(s: Slot, o: Obj, after: Obj)
    requires Inv(s) && s.seen == |s.history| - 1 && Latest(s) == Some(o) && !o.body.deleting && !Has(o)
    requires after == Obj(o.uid, s.clock, WithFinalizer(o).body)
    ensures Inv(s.(history := s.history + [Some(after)], clock := s.clock + 1, worker := Ready(after)))
  {
    WithFinalizerHas(o);
    AppendKeeps(s.history, Some(after), s.seen, s.clock, s.dropped);
  }

  lemma ReleaseAccepted(s: Slot)
    requires Inv(s) && s.worker.Dropped? && UpdateAt(Latest(s), s.clock, WithoutFinalizer(s.worker.o)).1
    ensures Inv(Do(s, Release))
  {
    var o := s.worker.o;
    var (after, ok) := UpdateAt(Latest(s), s.clock, WithoutFinalizer(o));
    VersionMatches(s, o);
    assert s.maker == None;
    if after != Latest(s) {
      AppendKeeps(s.history, after, s.seen, s.clock, s.dropped);
    }
  }

  lemma ReleaseKeeps(s: Slot)
    requires Inv(s)
    ensures Inv(Do(s, Release))
  {
    if s.worker.Dropped? {
      if UpdateAt(Latest(s), s.clock, WithoutFinalizer(s.worker.o)).1 {
        ReleaseAccepted(s);
      } else {
        RefusedKeeps(s);
      }
    }
  }

  lemma UserStepKeeps(s: Slot, step: Step)
    requires Inv(s) && (step.UserCreate? || step.UserUpdate? || step.UserDelete?)
    ensures Inv(Do(s, step))
  {
    var o := Latest(s);
    match step
    case UserCreate(body) => StoredKeeps(s, CreateAt(o, s.clock, body).0);
    case UserUpdate(update) =>
      if Permitted(o, update) {
        StoredKeeps(s, UpdateAt(o, s.clock, update).0);
      }
    case UserDelete => StoredKeeps(s, DeleteAt(o, s.clock).0);
  }

  lemma SqlStepKeeps(s: Slot, step: Step)
    requires Inv(s) && (step.Create? || step.Alter? || step.ForeignSql?)
    ensures Inv(Do(s, step))
  {
  }

  lemma DropKeeps(s: Slot)
    requires Inv(s)
    ensures Inv(Do(s, Drop))
  {
    if s.worker.Fetched? && s.worker.o.body.deleting && Has(s.worker.o) && s.entry.Some? {
      var o := s.worker.o;
      assert s.history[s.seen] == Some(o);
      forall k | s.seen <= k < |s.history| && s.history[k].Some? && s.history[k].value.uid == o.uid
        ensures s.history[k].value.body.deleting
      {
        if k > s.seen {
          assert Precedes(o, s.history[k].value);
        }
      }
    }
  }

  lemma StepKeeps(s: Slot, step: Step)
    requires Inv(s)
    ensures Inv(Do(s, step))
  {
    match step
    case Read(i) =>
    case AddFinalizer => AddFinalizerKeeps(s);
    case Release => ReleaseKeeps(s);
    case Stop =>
    case UserCreate(_) => UserStepKeeps(s, step);
    case UserUpdate(_) => UserStepKeeps(s, step);
    case UserDelete => UserStepKeeps(s, step);
    case Create(_) => SqlStepKeeps(s, step);
    case Alter(_) => SqlStepKeeps(s, step);
    case Drop => DropKeeps(s);
    case DropOther =>
    case ForeignSql(_, _) => SqlStepKeeps(s, step);
  }

  lemma {:induction false} RunKeeps(s: Slot, steps: seq<Step>)
    requires Inv(s)
    ensures Inv(Run(s, steps))
    decreases |steps|
  {
    if steps != [] {
      StepKeeps(s, steps[0]);
      RunKeeps(Do(s, steps[0]), steps[1..]);
    }
  }
}
