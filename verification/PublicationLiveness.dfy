/**
 Which interleavings can leave an object that is never released, and which cannot. Single calls are the
 steps here: both controllers and the users may get in between any two calls of a reconcile.
 */
module PublicationLiveness {
  import opened Wrappers
  import opened Postgres
  import opened Kube
  import opened PublicationProtocol
  import opened PublicationSafety

  // ---------------------------------------------------------------------------------------------------
  // One deletion
  // ---------------------------------------------------------------------------------------------------

  predicate IsEdit(step: Step) {
    step.UserCreate? || step.UserUpdate? || step.UserDelete?
  }

  predicate AllEdits(steps: seq<Step>) {
    forall i :: 0 <= i < |steps| ==> IsEdit(steps[i])
  }

  /** Edits leave the reconcile, the catalog and the finalizer alone, and the object marked if it was. */
  lemma {:induction false} EditsKeep(s: Slot, edits: seq<Step>)
    requires Inv(s) && AllEdits(edits)
    ensures var t := Run(s, edits);
            && Inv(t) && t.worker == s.worker && t.entry == s.entry && t.seen == s.seen && t.dropped == s.dropped
            && |s.history| <= |t.history| && t.history[..|s.history|] == s.history
            && (Terminating(s) ==> Terminating(t) && Latest(t).value.uid == Latest(s).value.uid)
            && (Terminating(s) && HeldBy(s.history, s.seen, Latest(s).value.uid) ==>
                HeldBy(t.history, t.seen, Latest(s).value.uid))
    decreases |edits|
  {
    if edits != [] {
      var t := Do(s, edits[0]);
      StepKeeps(s, edits[0]);
      EditKeeps(s, edits[0]);
      EditsKeep(t, edits[1..]);
      assert Run(t, edits[1..]).history[..|s.history|] == Run(t, edits[1..]).history[..|t.history|][..|s.history|];
    }
  }

  lemma StoringKeeps(s: Slot, o: Option<Obj>)
    requires s.history != []
    ensures var t := Stored(s, o);
            && t == s.(history := t.history, clock := t.clock)
            && Latest(t) == o
            && |s.history| <= |t.history| && t.history[..|s.history|] == s.history
            && (forall uid :: o.Some? && o.value.uid == uid && HeldBy(s.history, s.seen, uid) ==>
                HeldBy(t.history, t.seen, uid))
  {
  }

  lemma EditKeeps(s: Slot, edit: Step)
    requires Inv(s) && IsEdit(edit)
    ensures var t := Do(s, edit);
            && t.worker == s.worker && t.entry == s.entry && t.seen == s.seen && t.dropped == s.dropped
            && |s.history| <= |t.history| && t.history[..|s.history|] == s.history
            && (Terminating(s) ==> Terminating(t) && Latest(t).value.uid == Latest(s).value.uid)
            && (Terminating(s) && HeldBy(s.history, s.seen, Latest(s).value.uid) ==>
                HeldBy(t.history, t.seen, Latest(s).value.uid))
  {
    match edit
    case UserCreate(body) => StoringKeeps(s, CreateAt(Latest(s), s.clock, body).0);
    case UserUpdate(update) => StoringKeeps(s, UpdateAt(Latest(s), s.clock, update).0);
    case UserDelete => StoringKeeps(s, DeleteAt(Latest(s), s.clock).0);
  }

  /** The state after a deletion with edits before and after the DROP. */
  function Interrupted(s: Slot, before: seq<Step>, after: seq<Step>): (t: Slot)
    requires s.history != []
    ensures t.history != []
  {
    Run(Do(Run(s, before), Drop), after)
  }

  lemma AfterDrop(s: Slot)
    requires Inv(s) && s.worker.Fetched? && s.worker.o.body.deleting && Has(s.worker.o) && Terminating(s)
             && s.entry.Some?
    requires HeldBy(s.history, s.seen, s.worker.o.uid)
    ensures var t := Do(s, Drop);
            && Inv(t) && Terminating(t) && t.entry == None && t.worker == Dropped(s.worker.o)
            && Latest(t) == Latest(s) && HeldBy(t.history, t.seen, s.worker.o.uid)
  {
    StepKeeps(s, Drop);
  }

  lemma BeforeDrop(s: Slot, before: seq<Step>)
    requires Inv(s) && s.worker.Fetched? && s.seen == |s.history| - 1 && Terminating(s) && s.entry.Some?
             && AllEdits(before)
    ensures var t := Run(s, before);
            && Inv(t) && Terminating(t) && t.entry.Some? && t.worker == s.worker
            && s.worker.o.body.deleting && Has(s.worker.o) && HeldBy(t.history, t.seen, s.worker.o.uid)
  {
    assert Latest(s) == Some(s.worker.o);
    EditsKeep(s, before);
  }

  lemma BeforeRelease(s: Slot, before: seq<Step>, after: seq<Step>)
    requires Inv(s) && s.worker.Fetched? && s.seen == |s.history| - 1 && Terminating(s) && s.entry.Some?
    requires AllEdits(before) && AllEdits(after)
    ensures var t := Interrupted(s, before, after);
            && Inv(t) && Terminating(t) && t.entry == None && t.worker == Dropped(s.worker.o)
            && HeldBy(t.history, t.seen, s.worker.o.uid) && s.worker.o.body.deleting
  {
    BeforeDrop(s, before);
    AfterDrop(Run(s, before));
    EditsKeep(Do(Run(s, before), Drop), after);
  }

  lemma ReleaseOutcome(t: Slot, o: Obj)
    requires Inv(t) && Terminating(t) && t.entry == None && t.worker == Dropped(o) && HeldBy(t.history, t.seen, o.uid)
    ensures Latest(t) == Some(o) <==> Latest(Do(t, Release)).None? || !Has(Latest(Do(t, Release)).value)
    ensures Latest(t) != Some(o) ==> Wedged(Do(t, Release))
  {
    StepKeeps(t, Release);
    if Latest(t) == Some(o) {
      ReleaseRemoves(t);
    } else {
      if Latest(t).value.version == o.version {
        VersionMatches(t, o);
        assert false;
      }
      assert Latest(Do(t, Release)) == Latest(t);
    }
  }

  lemma InterruptedRelease(s: Slot, before: seq<Step>, after: seq<Step>)
    requires Inv(s) && s.worker.Fetched? && s.seen == |s.history| - 1 && Terminating(s) && s.entry.Some?
    requires AllEdits(before) && AllEdits(after)
    ensures var t, o := Interrupted(s, before, after), s.worker.o;
            && (Latest(t) == Some(o) <==> Latest(Do(t, Release)).None? || !Has(Latest(Do(t, Release)).value))
            && (Latest(t) != Some(o) ==> Wedged(Do(t, Release)))
  {
    BeforeRelease(s, before, after);
    ReleaseOutcome(Interrupted(s, before, after), s.worker.o);
  }

  lemma ReadIsPresent(s: Slot)
    requires Inv(s) && s.worker.Fetched? && s.seen == |s.history| - 1
    ensures Latest(s) == Some(s.worker.o)
  {
  }

  /**
   With no fault on the way, the object is released if and only if no edit, by whomever, has changed it
   between the read and the removal of the finalizer. If one has, the object is held for ever.
   */
  lemma ReleasedExactly(s: Slot, before: seq<Step>, after: seq<Step>)
    requires Inv(s) && s.worker.Fetched? && s.seen == |s.history| - 1 && Terminating(s) && s.entry.Some?
    requires AllEdits(before) && AllEdits(after)
    ensures var t := Interrupted(s, before, after);
            && (Released(s, Do(t, Release)) <==> Latest(t) == Latest(s))
            && (Latest(t) != Latest(s) ==> Wedged(Do(t, Release)))
  {
    ReadIsPresent(s);
    InterruptedRelease(s, before, after);
  }

  // ---------------------------------------------------------------------------------------------------
  // Whole runs
  // ---------------------------------------------------------------------------------------------------

  /** An object with the finalizer has its publication, unless its creation or its release is under way. */
  predicate Smooth(s: Slot) {
    && Inv(s)
    && (Latest(s).Some? && Has(Latest(s).value) && Names(Latest(s).value) == s.name && s.entry.None? ==>
          Ours(s) && (s.worker.Ready? || s.worker.Dropped?))
    && (s.worker.Dropped? && Ours(s) ==> Latest(s) == Some(s.worker.o))
  }

  /**
   Steps that go well: nothing fails or stops between the finalizer and the CREATE or between the DROP and
   the release, no changed object is dropped or changed while its release is under way, nobody else drops
   the publication, and nobody creates an object with the controller's finalizer.
   */
  predicate Gentle(s: Slot, step: Step)
    requires s.history != []
  {
    match step
    case Create(statement) =>
      s.worker.Ready? && Ours(s) && statement.CreatePublication? && statement.name == s.name ==>
        EntryAfter(s.entry, s.known, statement).1 in {None, Some(DuplicateObject)}
    case Stop => Ours(s) ==> !s.worker.Ready? && !s.worker.Dropped?
    case Drop => s.worker.Fetched? && Ours(s) ==> Latest(s) == Some(s.worker.o)
    case UserUpdate(_) => s.worker.Dropped? && Ours(s) ==> Latest(Do(s, step)) == Latest(s)
    case UserCreate(body) => Latest(s).Some? || FINALIZER !in body.finalizers
    case ForeignSql(entry, _) => s.entry.Some? ==> entry.Some?
    case _ => true
  }

  lemma GentleStepKeeps(s: Slot, step: Step)
    requires Smooth(s) && Gentle(s, step)
    ensures Smooth(Do(s, step))
  {
    if step.Release? && s.worker.Dropped? {
      ReleaseKeepsSmooth(s);
    } else if step.UserCreate? || step.UserUpdate? || step.UserDelete? {
      GentleEditKeeps(s, step);
    } else if step.AddFinalizer? {
      AddFinalizerKeepsSmooth(s);
    } else {
      GentleCallKeeps(s, step);
    }
  }

  lemma GentleEditKeeps(s: Slot, step: Step)
    requires Smooth(s) && Gentle(s, step) && (step.UserCreate? || step.UserUpdate? || step.UserDelete?)
    ensures Smooth(Do(s, step))
  {
    StepKeeps(s, step);
  }

  lemma AddFinalizerKeepsSmooth(s: Slot)
    requires Smooth(s)
    ensures Smooth(Do(s, AddFinalizer))
  {
    StepKeeps(s, AddFinalizer);
  }

  /** The steps that leave the API server alone. */
  lemma GentleCallKeeps(s: Slot, step: Step)
    requires Smooth(s) && Gentle(s, step) && !step.UserCreate? && !step.UserUpdate? && !step.UserDelete?
    requires !step.AddFinalizer? && !(step.Release? && s.worker.Dropped?)
    ensures Smooth(Do(s, step))
  {
    StepKeeps(s, step);
  }

  lemma ReleaseKeepsSmooth(s: Slot)
    requires Smooth(s) && s.worker.Dropped?
    ensures Smooth(Do(s, Release))
  {
    StepKeeps(s, Release);
    var o := s.worker.o;
    if Ours(s) {
      ReleaseRemoves(s);
    } else {
      OtherReleased(s);
    }
  }

  /** The release of an object that names another publication leaves one that does so too, or nothing changed. */
  lemma OtherReleased(s: Slot)
    requires Inv(s) && s.worker.Dropped? && !Ours(s)
    ensures var after := Latest(Do(s, Release));
            after == Latest(s) || after.None? || Names(after.value) != s.name
  {
  }

  predicate GentleRun(s: Slot, steps: seq<Step>)
    requires s.history != []
    decreases |steps|
  {
    steps == [] || (Gentle(s, steps[0]) && GentleRun(Do(s, steps[0]), steps[1..]))
  }

  lemma {:induction false} GentleAppends(s: Slot, a: seq<Step>, b: seq<Step>)
    requires s.history != [] && GentleRun(s, a) && GentleRun(Run(s, a), b)
    ensures GentleRun(s, a + b)
    decreases |a|
  {
    if a == [] {
      assert a + b == b;
    } else {
      assert (a + b)[1..] == a[1..] + b;
      GentleAppends(Do(s, a[0]), a[1..], b);
    }
  }

  lemma GentleOne(s: Slot, step: Step)
    requires s.history != [] && Gentle(s, step)
    ensures GentleRun(s, [step])
  {
    assert GentleRun(Do(s, step), []);
  }

  lemma {:induction false} GentleRunKeeps(s: Slot, steps: seq<Step>)
    requires Smooth(s) && GentleRun(s, steps)
    ensures Smooth(Run(s, steps))
    decreases |steps|
  {
    if steps != [] {
      GentleStepKeeps(s, steps[0]);
      GentleRunKeeps(Do(s, steps[0]), steps[1..]);
    }
  }

  /**
   A run that goes well never gets an object stuck, however its calls interleave with edits and however
   old the cache's answers are; and whenever the controller is idle, a marked object can be released.
   */
  lemma GentleRunsNeverWedge(s: Slot, steps: seq<Step>)
    requires Initial(s) && GentleRun(s, steps)
    ensures var t := Run(s, steps);
            && !Wedged(t)
            && (t.worker == Idle && Terminating(t) ==> Released(t, FreshDeletion(t)))
  {
    InitialInv(s);
    GentleRunKeeps(s, steps);
    var t := Run(s, steps);
    if t.worker == Idle && Terminating(t) {
      DeletionIsExact(t);
    }
  }
}
