/** Runs that go wrong, from the very beginning and in full. */
module Counterexamples {
  import opened Wrappers
  import opened Specs
  import opened SqlGrammar
  import opened PublicationSql
  import opened Postgres
  import opened PublicationRefinement
  import opened Kube
  import opened PublicationProtocol
  import opened PublicationSafety
  import opened ConfigDiff
  import opened ConfigController
  import opened ConfigRuns
  import opened ConfigIsolation

  const REF: PostgresRef := PostgresRef("db.example", 5432, "app", "credentials", "")
  const TABLE: TableName := TableName("public", "orders")
  const BEFORE: Publication := Publication("feed", [TABLE], [])
  const AFTER: Publication := Publication("feed", [TABLE], ["insert"])
  const CONFIG: Config := Config("shop", REF, [AFTER])
  const KEY: string := ResourceName("shop", "feed")

  // ---------------------------------------------------------------------------------------------------
  // A name is added again, with another specification, while its object is being deleted
  // ---------------------------------------------------------------------------------------------------

  const CREATED: Obj := Obj(0, 0, NewBody(CONFIG, BEFORE))
  const HELD: Obj := Obj(0, 1, CREATED.body.(finalizers := [FINALIZER]))
  const MARKED: Obj := Obj(0, 2, HELD.body.(deleting := true))

  /** Nothing has happened yet, and the tables exist. */
  const START: Slot := Slot(NameOf(BEFORE), [None], 0, 0, None, TableSet(CleanTables([TABLE])), Idle, None, {})

  /** The config creates the object, the publication is created, and the config, no longer wanting it, deletes it. */
  const LIFE: seq<Step> := [UserCreate(CREATED.body), Read(1), AddFinalizer, Create(CreateOf(BEFORE)), UserDelete]

  /** A reconcile of the deletion, with the config's update of the object it finds in between. */
  const RACE: seq<Step> := [Read(3), Drop, UserUpdate(Respecified(CONFIG, Item(KEY, MARKED), AFTER)), Release]

  lemma Made()
    ensures EntryAfter(None, START.known, CreateOf(BEFORE)) == (Some(Entry(Listed(START.known), OPERATIONS)), None)
  {
    assert CreateOf(BEFORE) == CreatePublication(NameOf(BEFORE), OnlyTables(CleanTables([TABLE])), None);
  }

  lemma FinalizerGoesIn()
    ensures UpdateAt(Some(CREATED), 1, WithFinalizer(CREATED)) == (Some(HELD), true)
    ensures Has(HELD) && !Has(CREATED)
  {
    assert CREATED.body.finalizers + [FINALIZER] == [FINALIZER];
    assert [FINALIZER][0] == FINALIZER;
  }

  /** The state after LIFE. */
  const DOOMED: Slot :=
    Slot(NameOf(BEFORE), [None, Some(CREATED), Some(HELD), Some(MARKED)], 3, 1,
         Some(Entry(Listed(START.known), OPERATIONS)), START.known, Idle, Some(0), {})

  lemma LifeGoesWell()
    ensures Run(START, LIFE) == DOOMED
  {
    Made();
    FinalizerGoesIn();
    var s1 := START.(history := [None, Some(CREATED)], clock := 1);
    assert Do(START, LIFE[0]) == s1;
    var s2 := s1.(seen := 1, worker := Fetched(CREATED));
    assert Do(s1, LIFE[1]) == s2;
    var s3 := s2.(history := [None, Some(CREATED), Some(HELD)], clock := 2, worker := Ready(HELD));
    assert Do(s2, LIFE[2]) == s3;
    var s4 := s3.(entry := DOOMED.entry, maker := Some(0), worker := Idle);
    assert Do(s3, LIFE[3]) == s4;
    assert DeleteAt(Some(HELD), 2) == (Some(MARKED), true);
    assert Do(s4, LIFE[4]) == DOOMED;
    RunFirst(START, LIFE[0], LIFE[1..]);
    RunFirst(s1, LIFE[1], LIFE[2..]);
    RunThree(s2, LIFE[2], LIFE[3], LIFE[4]);
    assert LIFE == [LIFE[0]] + LIFE[1..] && LIFE[1..] == [LIFE[1]] + LIFE[2..]
           && LIFE[2..] == [LIFE[2], LIFE[3], LIFE[4]];
  }

  /** The state after the DROP. */
  const DROPPED: Slot :=
    DOOMED.(seen := 3, entry := None, maker := None, dropped := {0}, worker := Dropped(MARKED))

  lemma DropGoesWell()
    requires Inv(DOOMED)
    ensures Do(Do(DOOMED, RACE[0]), RACE[1]) == DROPPED && Inv(DROPPED)
  {
    FinalizerGoesIn();
    var s1 := DOOMED.(seen := 3, worker := Fetched(MARKED));
    assert Do(DOOMED, RACE[0]) == s1;
    StepKeeps(DOOMED, RACE[0]);
    StepKeeps(s1, RACE[1]);
  }

  lemma UpdateWedges()
    requires Inv(DROPPED)
    ensures Wedged(Do(Do(DROPPED, RACE[2]), RACE[3]))
  {
    FinalizerGoesIn();
    var update := Respecified(CONFIG, Item(KEY, MARKED), AFTER);
    assert update.body.spec != MARKED.body.spec;
    EditAfterDropWedges(DROPPED, update);
  }

  lemma RaceFromDoomed()
    requires Inv(DOOMED)
    ensures Wedged(Run(DOOMED, RACE))
  {
    DropGoesWell();
    UpdateWedges();
    RunTwo(DOOMED, RACE[0], RACE[1]);
    RunTwo(DROPPED, RACE[2], RACE[3]);
    RunAppends(DOOMED, [RACE[0], RACE[1]], [RACE[2], RACE[3]]);
    assert RACE == [RACE[0], RACE[1]] + [RACE[2], RACE[3]];
  }

  /** From a fresh start, without any fault, to an object that nothing ever releases. */
  lemma RaceWedges()
    ensures Initial(START) && Wedged(Run(START, LIFE + RACE))
  {
    LifeGoesWell();
    InitialInv(START);
    RunKeeps(START, LIFE);
    RunAppends(START, LIFE, RACE);
    RaceFromDoomed();
  }

  // ---------------------------------------------------------------------------------------------------
  // A config deletes an object that is not its own
  // ---------------------------------------------------------------------------------------------------

  /** The config no longer wants anything. */
  const EMPTY: Config := Config("shop", REF, [])

  /** Somebody's own object, made under the same name once the config's had gone. */
  const STRANGER: Obj := Obj(1, 1, Body([], ResourceSpec(REF, BEFORE), [], false))

  const PAST: seq<Api> := [Api(map[KEY := CREATED], 1), Api(map[KEY := STRANGER], 2)]

  const LISTED: seq<Item> := [Item(KEY, CREATED)]

  lemma PastIsHistory()
    ensures IsHistory(PAST, [Changed(KEY, Some(STRANGER), 2)]) && Seen(PAST, LISTED, "shop")
  {
    NewBodyOwned(CONFIG, BEFORE);
    assert EverywhereNamed(PAST[0]) by {
      forall config | Owned(CREATED.body, config)
        ensures WellNamedFor(Some(CREATED), KEY, config)
      {
        OneOwner(CREATED.body, "shop", config);
      }
    }
    assert IsHistory(PAST[..1], []);
    assert Put(PAST[0].objs, KEY, Some(STRANGER)) == PAST[1].objs;
    assert Find(PAST[0].objs, KEY) == Some(CREATED);
  }

  /** The list was true once, every call succeeds, and the stranger's object is gone. */
  lemma OutdatedListDeletesStranger()
    ensures IsHistory(PAST, [Changed(KEY, Some(STRANGER), 2)]) && Seen(PAST, LISTED, "shop")
    ensures VersionsIdentify(PAST[1], LISTED) && Foreign(PAST[1], "shop", KEY)
    ensures IsOrder(Order([], [], ["feed"]), ByName(LISTED), Wants(EMPTY))
    ensures var (after, _, ok) := ConfigRun(PAST[1], [], EMPTY, LISTED, Order([], [], ["feed"]));
            ok && KEY !in after.objs
  {
    PastIsHistory();
    assert LISTED[..0] == [];
    assert ByName(LISTED) == map["feed" := LISTED[0]];
    assert Picked(ByName(LISTED), ["feed"]) == LISTED;
    assert WritesRun(PAST[1], [], EMPTY, LISTED, Order([], [], ["feed"])) == (PAST[1], [], true);
    var (after, ok) := Answer(PAST[1], Delivered, KEY, DeleteAt(Some(STRANGER), 2));
    assert DeleteRun(PAST[1], [], LISTED) == DeleteRun(after, [], LISTED[1..]);
  }
}
