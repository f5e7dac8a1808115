/**
 What holds over whole runs of the publication protocol: no orphaned publications, no drop that was not
 asked for, and an exact account of the objects that are never released.
 */
module PublicationSafety {
  import opened Wrappers
  import opened Kube
  import opened PublicationProtocol

  // ---------------------------------------------------------------------------------------------------
  // No orphans
  // ---------------------------------------------------------------------------------------------------

  /**
   In every reachable state, a publication the controller created has a live object, the very one it was
   created for, and that object names it and carries the finalizer.
   */
  lemma NoOrphans(s: Slot, steps: seq<Step>)
    requires Initial(s)
    ensures var t := Run(s, steps);
            t.maker.Some? ==>
              && t.entry.Some? && Latest(t).Some? && Latest(t).value.uid == t.maker.value
              && Names(Latest(t).value) == s.name && Has(Latest(t).value)
  {
    InitialInv(s);
    RunKeeps(s, steps);
    SameName(s, steps);
    var t := Run(s, steps);
    if t.maker.Some? {
      assert Latest(t) == t.history[|t.history| - 1];
    }
  }

  lemma {:induction false} SameName(s: Slot, steps: seq<Step>)
    requires s.history != []
    ensures Run(s, steps).name == s.name
    decreases |steps|
  {
    if steps != [] {
      SameName(Do(s, steps[0]), steps[1..]);
    }
  }

  // ---------------------------------------------------------------------------------------------------
  // Drop discipline
  // ---------------------------------------------------------------------------------------------------

  /**
   A successful DROP acts for an object that has been marked for deletion: if the name is still held by
   that object it is marked, and a publication the controller created was created for that object.
   */
  lemma DropOnlyWhenMarked(s: Slot, steps: seq<Step>)
    requires Initial(s)
    ensures var t := Run(s, steps);
            t.entry.Some? && Do(t, Drop).entry.None? ==>
              && t.worker.Fetched?
              && t.worker.o.body.deleting && Names(t.worker.o) == t.name
              && (Latest(t).Some? && Latest(t).value.uid == t.worker.o.uid ==> Latest(t).value.body.deleting)
              && (t.maker.Some? ==> t.maker.value == t.worker.o.uid)
  {
    InitialInv(s);
    RunKeeps(s, steps);
    var t := Run(s, steps);
    if t.entry.Some? && Do(t, Drop).entry.None? {
      var last := |t.history| - 1;
      assert t.history[t.seen] == Some(t.worker.o) && Latest(t) == t.history[last];
      if t.seen < last && t.history[last].Some? {
        assert Precedes(t.worker.o, t.history[last].value);
      }
    }
  }

  lemma {:induction false} DroppedGrows(s: Slot, steps: seq<Step>)
    requires s.history != []
    ensures s.dropped <= Run(s, steps).dropped
    decreases |steps|
  {
    if steps != [] {
      DroppedGrows(Do(s, steps[0]), steps[1..]);
    }
  }

  /** Once the publication of an object was dropped, none is ever created for that object again. */
  lemma NeverRecreated(s: Slot, before: seq<Step>, after: seq<Step>, uid: nat)
    requires Initial(s) && uid in Run(s, before).dropped
    ensures var t := Run(Run(s, before), after);
            t.maker != Some(uid) && (t.worker.Ready? || t.worker.Altering? ==> t.worker.o.uid != uid)
  {
    InitialInv(s);
    RunKeeps(s, before);
    RunKeeps(Run(s, before), after);
    DroppedGrows(Run(s, before), after);
  }

  // ---------------------------------------------------------------------------------------------------
  // Deletion: when it ends, and when it cannot
  // ---------------------------------------------------------------------------------------------------

  predicate Terminating(s: Slot)
    requires s.history != []
  {
    Latest(s).Some? && Latest(s).value.body.deleting && Has(Latest(s).value) && Names(Latest(s).value) == s.name
  }

  predicate Released(before: Slot, after: Slot)
    requires before.history != [] && after.history != []
  {
    Latest(before).Some? && (Latest(after).None? || !Has(Latest(after).value))
  }

  /** What a reconcile of a terminating object comes to when it reads the present state and meets no fault. */
  function FreshDeletion(s: Slot): (t: Slot)
    requires s.history != []
    ensures t.history != []
  {
    Do(Do(Do(s, Read(|s.history| - 1)), Drop), Release)
  }

  lemma ReleaseRemoves(s: Slot)
    requires s.history != [] && s.worker.Dropped? && Has(s.worker.o) && Latest(s) == Some(s.worker.o)
    ensures Latest(Do(s, Release)).None? || !Has(Latest(Do(s, Release)).value)
  {
    var o := s.worker.o;
    var (after, ok) := UpdateAt(Some(o), s.clock, WithoutFinalizer(o));
    assert FINALIZER !in WithoutFinalizer(o).body.finalizers;
    assert WithoutFinalizer(o).body.finalizers != o.body.finalizers;
    assert Latest(Do(s, Release)) == after;
  }

  lemma DropAndRelease(read: Slot)
    requires read.history != [] && read.worker.Fetched? && Latest(read) == Some(read.worker.o)
    requires read.worker.o.body.deleting && Has(read.worker.o) && Ours(read)
    ensures var after := Latest(Do(Do(read, Drop), Release));
            if read.entry.Some? then after.None? || !Has(after.value) else after == Latest(read)
  {
    if read.entry.Some? {
      ReleaseRemoves(Do(read, Drop));
    }
  }

  /** It releases the object if and only if the publication exists. */
  lemma DeletionIsExact(s: Slot)
    requires Inv(s) && s.worker == Idle && Terminating(s)
    ensures Released(s, FreshDeletion(s)) <==> s.entry.Some?
  {
    DropAndRelease(Do(s, Read(|s.history| - 1)));
  }

  /**
   The object is marked and holds the finalizer, the cache has shown the mark, the publication is gone, and
   no release is under way that could still succeed.
   */
  predicate Wedged(s: Slot) {
    && Inv(s)
    && Terminating(s)
    && s.entry == None
    && HeldBy(s.history, s.seen, Latest(s).value.uid)
    && s.history[s.seen].value.body.deleting
    && match s.worker
       case Idle => true
       case Fetched(o) => true
       case Ready(_) => false
       case Altering(_) => false
       case Dropped(o) => o.version != Latest(s).value.version
  }

  lemma AllMarkedSinceSeen(s: Slot, k: nat)
    requires Wedged(s) && s.seen <= k < |s.history|
    ensures s.history[k].Some? && s.history[k].value.body.deleting && Names(s.history[k].value) == s.name
  {
    if k > s.seen {
      assert Precedes(s.history[s.seen].value, s.history[k].value);
    }
    if k < |s.history| - 1 {
      assert Precedes(s.history[k].value, s.history[|s.history| - 1].value);
    }
  }

  /** Nobody but the controller makes the publication exist. */
  predicate NoForeignCreation(step: Step) {
    step.ForeignSql? ==> step.entry.None?
  }

  /** No step of either controller and no permitted edit of the resource leads out. */
  lemma WedgedStep(s: Slot, step: Step)
    requires Wedged(s) && NoForeignCreation(step)
    ensures Wedged(Do(s, step))
  {
    StepKeeps(s, step);
    var t, last := Do(s, step), |s.history| - 1;
    AllMarkedSinceSeen(s, s.seen);
    match step {
      case Read(i) =>
        if s.worker.Idle? && s.seen <= i < |s.history| {
          AllMarkedSinceSeen(s, i);
        }
      case UserCreate(_) =>
        assert Stored(s, Latest(s)).history == s.history;
      case UserUpdate(update) =>
        if Permitted(Latest(s), update) {
          WedgedUpdate(s, update);
        }
      case _ =>
    }
  }

  lemma WedgedUpdate(s: Slot, update: Obj)
    requires Wedged(s) && Permitted(Latest(s), update)
    ensures Wedged(Do(s, UserUpdate(update)))
  {
    StepKeeps(s, UserUpdate(update));
    var t := Do(s, UserUpdate(update));
    var (after, ok) := UpdateAt(Latest(s), s.clock, update);
    if after != Latest(s) {
      assert after.Some? && Has(after.value) && after.value.version == s.clock;
      assert t.history == s.history + [after];
      if s.worker.Dropped? {
        assert s.history[s.seen].value.version < s.clock;
      }
    }
  }

  predicate NoForeignCreations(steps: seq<Step>) {
    forall i :: 0 <= i < |steps| ==> NoForeignCreation(steps[i])
  }

  /** So the object is held for ever, whatever the controllers do and however often they retry. */
  lemma {:induction false} WedgedForever(s: Slot, steps: seq<Step>)
    requires Wedged(s) && NoForeignCreations(steps)
    ensures Wedged(Run(s, steps)) && !Released(s, Run(s, steps))
    decreases |steps|
  {
    if steps != [] {
      WedgedStep(s, steps[0]);
      WedgedForever(Do(s, steps[0]), steps[1..]);
    }
  }

  /** Some run in which nobody else creates the publication ends with the object gone or without the finalizer. */
  ghost predicate Releasable(s: Slot)
    requires s.history != []
  {
    exists steps :: NoForeignCreations(steps) && Released(s, Run(s, steps))
  }

  lemma AbsentIsWedged(s: Slot)
    requires Inv(s) && s.worker == Idle && s.seen == |s.history| - 1 && Terminating(s) && s.entry.None?
    ensures Wedged(s)
  {
  }

  lemma WedgedIsNotReleasable(s: Slot)
    requires Wedged(s)
    ensures !Releasable(s)
  {
    forall steps | NoForeignCreations(steps)
      ensures !Released(s, Run(s, steps))
    {
      WedgedForever(s, steps);
    }
  }

  lemma PresentIsReleasable(s: Slot)
    requires Inv(s) && s.worker == Idle && Terminating(s) && s.entry.Some?
    ensures Releasable(s)
  {
    DeletionIsExact(s);
    var steps := [Read(|s.history| - 1), Drop, Release];
    RunThree(s, Read(|s.history| - 1), Drop, Release);
    assert NoForeignCreations(steps) && Released(s, Run(s, steps));
  }

  /**
   A terminating object, with the controller idle and the cache up to date: its publication is gone if and
   only if no run whatever releases it, unless somebody else creates the publication.
   */
  lemma StuckExactly(s: Slot)
    requires Inv(s) && s.worker == Idle && s.seen == |s.history| - 1 && Terminating(s)
    ensures s.entry.None? <==> !Releasable(s)
  {
    if s.entry.None? {
      AbsentIsWedged(s);
      WedgedIsNotReleasable(s);
    } else {
      PresentIsReleasable(s);
    }
  }

  // How one gets there.

  /**
   First way: after a successful DROP, any edit of the object before the finalizer is removed makes the
   removal fail, and the object is held for ever. No fault is needed for this.
   */
  lemma EditAfterDropWedges(s: Slot, update: Obj)
    requires Inv(s) && s.worker.Dropped? && Ours(s) && s.entry.None?
    requires Latest(s) == Some(s.worker.o) && HeldBy(s.history, s.seen, s.worker.o.uid)
    requires Permitted(Latest(s), update)
    requires update.uid == s.worker.o.uid && update.version == s.worker.o.version
    requires update.body.(deleting := true) != s.worker.o.body
    ensures Wedged(Do(Do(s, UserUpdate(update)), Release))
  {
    var t := Do(s, UserUpdate(update));
    StepKeeps(s, UserUpdate(update));
    StepKeeps(t, Release);
    assert s.worker.o.body.deleting;
    assert t.history == s.history + [UpdateAt(Latest(s), s.clock, update).0];
    assert s.history[s.seen] == Some(s.worker.o);
    assert s.worker.o.version < s.clock;
  }

  /** Second way: the controller stops, or its update fails, between the DROP and the removal of the finalizer. */
  lemma StopAfterDropWedges(s: Slot)
    requires Inv(s) && s.worker.Dropped? && s.entry.None? && Terminating(s) && HeldBy(s.history, s.seen, s.worker.o.uid)
    ensures Wedged(Do(s, Stop))
  {
    StepKeeps(s, Stop);
  }

  lemma SeenWithoutPublication(s: Slot)
    requires Inv(s) && s.worker.Idle? && s.entry.None? && Terminating(s)
    ensures Wedged(Do(Do(Do(s, Read(|s.history| - 1)), Drop), Stop))
  {
    var t := Do(s, Read(|s.history| - 1));
    StepKeeps(s, Read(|s.history| - 1));
    assert t.worker == Fetched(Latest(s).value);
    StepKeeps(t, Drop);
    StepKeeps(Do(t, Drop), Stop);
  }

  lemma DeletionMarks(s: Slot)
    requires s.history != [] && Latest(s).Some? && Has(Latest(s).value)
    requires Names(Latest(s).value) == s.name
    ensures var t := Do(s, UserDelete);
            Terminating(t) && t.worker == s.worker && t.entry == s.entry
  {
    assert Latest(s).value.body.finalizers != [];
  }

  /** Third way: deletion is requested, and seen, before any CREATE has succeeded. */
  lemma DeleteBeforeCreateWedges(s: Slot)
    requires Inv(s) && s.worker.Idle? && s.entry.None? && Latest(s).Some? && Has(Latest(s).value)
    requires Names(Latest(s).value) == s.name
    ensures var t := Do(s, UserDelete);
            Wedged(Do(Do(Do(t, Read(|t.history| - 1)), Drop), Stop))
  {
    StepKeeps(s, UserDelete);
    DeletionMarks(s);
    SeenWithoutPublication(Do(s, UserDelete));
  }

  // ---------------------------------------------------------------------------------------------------
  // All resources together
  // ---------------------------------------------------------------------------------------------------

  /** A step of one of the machines; a key stands for a resource name and a publication name. */
  datatype Event = Event(key: string, step: Step)

  type Fleet = map<string, Slot>

  predicate FleetStarts(f: Fleet) {
    forall key :: key in f ==> Initial(f[key])
  }

  function Happen(f: Fleet, events: seq<Event>): (g: Fleet)
    requires forall key :: key in f ==> f[key].history != []
    ensures g.Keys == f.Keys
    decreases |events|
  {
    if events == [] then f
    else if events[0].key in f then Happen(f[events[0].key := Do(f[events[0].key], events[0].step)], events[1..])
    else Happen(f, events[1..])
  }

  /** The steps of one machine, in order. */
  function StepsOf(events: seq<Event>, key: string): seq<Step> {
    if events == [] then []
    else (if events[0].key == key then [events[0].step] else []) + StepsOf(events[1..], key)
  }

  /** The machines do not get in each other's way. */
  lemma {:induction false} HappenIsRun(f: Fleet, events: seq<Event>, key: string)
    requires forall k :: k in f ==> f[k].history != []
    requires key in f
    ensures Happen(f, events)[key] == Run(f[key], StepsOf(events, key))
    decreases |events|
  {
    if events != [] {
      var e := events[0];
      var rest := StepsOf(events[1..], key);
      if e.key in f {
        HappenIsRun(f[e.key := Do(f[e.key], e.step)], events[1..], key);
      } else {
        HappenIsRun(f, events[1..], key);
      }
      if e.key == key {
        RunFirst(f[key], e.step, rest);
      } else {
        assert [] + rest == rest;
      }
    }
  }

  /** However the steps of all resources interleave, no publication is orphaned. */
  lemma NoOrphansAnywhere(f: Fleet, events: seq<Event>, key: string)
    requires FleetStarts(f) && key in f
    ensures var t := Happen(f, events)[key];
            t.maker.Some? ==>
              && t.history != [] && Latest(t).Some? && Latest(t).value.uid == t.maker.value
              && Names(Latest(t).value) == f[key].name && Has(Latest(t).value)
  {
    HappenIsRun(f, events, key);
    NoOrphans(f[key], StepsOf(events, key));
  }
}
