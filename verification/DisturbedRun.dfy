/**
 * A run with a disturbed promotion: one connection stores a row and looks at the best, another one publishes a stage,
 * and then the first promotes its row on what it saw.
 */
module DisturbedRun {
  import opened Wrappers
  import opened ChainModel
  import opened ChainInvariant
  import opened LiveHandles
  import opened Snapshot
  import opened SnapshotRefinement
  import opened SnapshotProtocol
  import opened Witnesses

  const ROOTED_LIVE := Db(ROOTED, 0, None, {})
  const BEGUN := ROOTED_LIVE.(baseline := Some(Baseline(0, Some(1))))
  const HALF_STAGED := Db(
    Store(map[1 := ROOT_ROW, 2 := HEAVY_ROW], map[0 := 1, 1 := 2], Some(2)), 0, Some(Baseline(0, Some(1))), {2})
  const STAGED := Db(
    Store(map[1 := ROOT_ROW, 2 := HEAVY_ROW, 5 := TOP_ROW], map[0 := 1, 1 := 2, 2 := 5], Some(5)),
    1, Some(Baseline(0, Some(1))), {2, 5})
  const FORKED_LIVE := Db(Store(map[1 := ROOT_ROW, 3 := FORK_ROW], map[0 := 1], Some(1)), 0, None, {})
  const LOOKED := Handle([FORK_ROW], true, Some(Some(ROOT_ROW)))
  const PUBLISHED := Store(
    map[1 := ROOT_ROW, 2 := HEAVY_ROW, 3 := FORK_ROW, 5 := TOP_ROW], map[0 := 1, 1 := 2, 2 := 5], Some(5))

  // ---- The effect of each step ----

  lemma InsertsRoot()
    ensures Insert(NONCE_HASHED, EMPTY_DB, Genesis(ROOT_ROW.header)) == ROOTED_LIVE
  {
    RootedIsReached();
  }

  lemma StagesHeavy()
    ensures Insert(NONCE_HASHED, BEGUN, Single(HEAVY_ROW.header)) == HALF_STAGED
  {
    RowWorks();
    AddsTip(BEGUN, 2, ROOT_ROW, 9, HEAVY_ROW);
  }

  lemma StagesTop()
    ensures Insert(NONCE_HASHED, HALF_STAGED, Single(TOP_ROW.header)) == STAGED.(generation := 0)
  {
    RowWorks();
    AddsTip(HALF_STAGED, 5, HEAVY_ROW, 9, TOP_ROW);
  }

  lemma AcceptsFork()
    ensures Accept(NONCE_HASHED, ROOTED, Single(FORK_ROW.header)) == Some(Handle([FORK_ROW], false, None))
  {
    AdmitsChild(ROOTED.headers, 3, ROOT_ROW, 99, FORK_ROW);
  }

  lemma PutsFork()
    ensures PutAll(ROOTED, [FORK_ROW]) == Outcome(FORKED_LIVE.store, Ok(()))
  {
    assert [FORK_ROW][1..] == [];
    assert ROOTED.headers[3 := FORK_ROW] == FORKED_LIVE.store.headers;
  }

  // ---- The run ----

  const S1 := System(ROOTED_LIVE, map[], map[])
  const S2 := System(ROOTED_LIVE, map[0 := BEGUN], map[])
  const S3 := System(ROOTED_LIVE, map[0 := HALF_STAGED], map[])
  const S4 := System(ROOTED_LIVE, map[0 := STAGED.(generation := 0)], map[])
  const S5 := System(ROOTED_LIVE, map[0 := STAGED], map[])
  const S6 := System(ROOTED_LIVE, map[0 := STAGED], map[0 := Handle([FORK_ROW], false, None)])
  const S7 := System(FORKED_LIVE, map[0 := STAGED], map[0 := Handle([FORK_ROW], true, None)])
  const S8 := System(FORKED_LIVE, map[0 := STAGED], map[0 := LOOKED])
  const S9 := System(Db(PUBLISHED, 1, None, {}), map[0 := STAGED], map[0 := LOOKED])

  /** An orderly run that ends in this system. */
  ghost predicate Reaches(steps: seq<Step>, sys: System) {
    Exec(NONCE_HASHED, steps) == sys && Orderly(NONCE_HASHED, steps, ROOT_ROW.header)
  }

  lemma Then(steps: seq<Step>, step: Step, sys: System, sys': System) returns (longer: seq<Step>)
    requires Reaches(steps, sys) && Next(NONCE_HASHED, sys, step) == sys' && !step.PromoteRows?
    requires StepFixesGenesis(NONCE_HASHED, step, ROOT_ROW.header)
    ensures Reaches(longer, sys')
  {
    longer := steps + [step];
    assert longer[..|steps|] == steps;
  }

  lemma Run2() returns (steps: seq<Step>)
    ensures Reaches(steps, S2)
  {
    InsertsRoot();
    assert Next(NONCE_HASHED, INITIAL, LiveInsert(Genesis(ROOT_ROW.header))) == S1;
    steps := Then([], LiveInsert(Genesis(ROOT_ROW.header)), INITIAL, S1);
    assert Next(NONCE_HASHED, S1, Take(0, 0, Some(1))) == S2;
    steps := Then(steps, Take(0, 0, Some(1)), S1, S2);
  }

  lemma Run3() returns (steps: seq<Step>)
    ensures Reaches(steps, S3)
  {
    steps := Run2();
    StagesHeavy();
    assert Next(NONCE_HASHED, S2, StageInsert(0, Single(HEAVY_ROW.header))) == S3;
    steps := Then(steps, StageInsert(0, Single(HEAVY_ROW.header)), S2, S3);
  }

  lemma Run4() returns (steps: seq<Step>)
    ensures Reaches(steps, S4)
  {
    steps := Run3();
    StagesTop();
    assert Next(NONCE_HASHED, S3, StageInsert(0, Single(TOP_ROW.header))) == S4;
    steps := Then(steps, StageInsert(0, Single(TOP_ROW.header)), S3, S4);
  }

  lemma Run5() returns (steps: seq<Step>)
    ensures Reaches(steps, S5)
  {
    steps := Run4();
    assert Next(NONCE_HASHED, S4, StageGeneration(0, 1)) == S5;
    steps := Then(steps, StageGeneration(0, 1), S4, S5);
  }

  lemma Run6() returns (steps: seq<Step>)
    ensures Reaches(steps, S6)
  {
    steps := Run5();
    AcceptsFork();
    assert Next(NONCE_HASHED, S5, AcceptRows(0, Single(FORK_ROW.header))) == S6;
    steps := Then(steps, AcceptRows(0, Single(FORK_ROW.header)), S5, S6);
  }

  lemma Run8() returns (steps: seq<Step>)
    ensures Reaches(steps, S8)
  {
    steps := Run6();
    PutsFork();
    assert Next(NONCE_HASHED, S6, PutRows(0)) == S7;
    steps := Then(steps, PutRows(0), S6, S7);
    assert Next(NONCE_HASHED, S7, LookAtBest(0)) == S8;
    steps := Then(steps, LookAtBest(0), S7, S8);
  }

  lemma MayPublish()
    ensures ValidBaseline(STAGED, 0, Some(1)) && JournalPresent(STAGED) && JournalConsistent(FORKED_LIVE.store, STAGED)
    ensures !GenesisBlocked(NONCE_HASHED, FORKED_LIVE, STAGED, ROOT_ROW.header)
  {
  }

  lemma PublishesOver()
    requires StageValid(NONCE_HASHED, FORKED_LIVE, STAGED, ROOT_ROW.header)
    requires IndexedFrom(NONCE_HASHED, FORKED_LIVE.store, ROOT_ROW.header)
    ensures PublishIfCurrent(NONCE_HASHED, FORKED_LIVE, STAGED, 0, Some(1)).live == Db(PUBLISHED, 1, None, {})
    ensures Indexed(NONCE_HASHED, PUBLISHED)
  {
    MayPublish();
    PublishOutcome(NONCE_HASHED, FORKED_LIVE, STAGED, ROOT_ROW.header, 0, Some(1));
    Installs();
  }

  lemma Installs()
    ensures Installed(FORKED_LIVE,
              Store(STAGED.store.headers + FORKED_LIVE.store.headers, STAGED.store.canonical, STAGED.store.best), 1)
         == Db(PUBLISHED, 1, None, {})
  {
    assert STAGED.store.headers + FORKED_LIVE.store.headers == PUBLISHED.headers;
  }

  lemma Run9() returns (steps: seq<Step>)
    ensures Reaches(steps, S9) && Indexed(NONCE_HASHED, PUBLISHED)
  {
    steps := Run8();
    RunsKeepSystemValid(NONCE_HASHED, steps, ROOT_ROW.header);
    NextPublishes();
    steps := Then(steps, Publish(0, 0, Some(1)), S8, S9);
  }

  lemma NextPublishes()
    requires SystemIndexed(NONCE_HASHED, S8, ROOT_ROW.header)
    ensures Next(NONCE_HASHED, S8, Publish(0, 0, Some(1))) == S9 && Indexed(NONCE_HASHED, PUBLISHED)
  {
    assert StageValid(NONCE_HASHED, FORKED_LIVE, S8.stages[0], ROOT_ROW.header);
    PublishesOver();
  }

  lemma PromotesStale()
    requires Indexed(NONCE_HASHED, PUBLISHED)
    ensures var after := PromoteBatch(PUBLISHED, Some(ROOT_ROW), [FORK_ROW]).store;
            && after.best == Some(3) && BestWork(after) < BestWork(PUBLISHED)
            && after.canonical == map[0 := 1, 1 := 3, 2 := 5] && !Indexed(NONCE_HASHED, after)
  {
    RowWorks();
    var xs := [FORK_ROW];
    assert xs[..1] == xs && LastMax(xs) == 0 && xs[1..] == [];
    LatePromotionIff(NONCE_HASHED, PUBLISHED, Some(ROOT_ROW), xs);
    PromotionPlan(PUBLISHED, Some(ROOT_ROW), xs);
  }

  /** The stale promotion lowers best chainwork and leaves an index that mixes two chains. */
  lemma DisturbedPromotion() returns (steps: seq<Step>)
    ensures Orderly(NONCE_HASHED, steps, ROOT_ROW.header)
    ensures var before := Exec(NONCE_HASHED, steps).live.store;
            var after := Next(NONCE_HASHED, Exec(NONCE_HASHED, steps), PromoteRows(0)).live.store;
            && before.best == Some(5) && after.best == Some(3) && BestWork(after) < BestWork(before)
            && after.canonical == map[0 := 1, 1 := 3, 2 := 5] && !Indexed(NONCE_HASHED, after)
  {
    steps := Run9();
    PromotesStale();
  }
}
