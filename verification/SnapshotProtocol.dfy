/**
 * Any number of stagers and connections against one live database. Private snapshots are taken, extended and published
 * back under a comparison of generation and best hash. Meanwhile the live database takes insertions: undivided ones, as
 * a program with one connection performs them, and divided ones of several connections, whose transactions interleave
 * with everything else. Every step is one transaction or one read; runs interleave the steps in any order.
 */
module SnapshotProtocol {
  import opened Wrappers
  import opened ChainModel
  import opened ChainInvariant
  import opened LiveHandles
  import opened Snapshot
  import opened SnapshotRefinement

  type StagerId = nat
  type HandleId = nat

  datatype System = System(live: Db, stages: map<StagerId, Db>, handles: map<HandleId, Handle>)

  const INITIAL := System(EMPTY_DB, map[], map[])

  /**
   * Taking a snapshot includes starting its journal; a refused start leaves a snapshot without a baseline. A stage is a
   * private file, so its insertions are undivided.
   */
  datatype Step =
    | LiveInsert(op: Op)
    | LiveGeneration(generation: U64)
    | AcceptRows(handle: HandleId, op: Op)
    | PutRows(handle: HandleId)
    | LookAtBest(handle: HandleId)
    | PromoteRows(handle: HandleId)
    | Take(id: StagerId, generation: U64, best: Option<Hash>)
    | StageInsert(id: StagerId, op: Op)
    | StageGeneration(id: StagerId, generation: U64)
    | Publish(id: StagerId, generation: U64, best: Option<Hash>)

  function Next(P: Params, sys: System, step: Step): System {
    System(NextLive(P, sys, step), NextStages(P, sys, step), NextHandles(P, sys, step))
  }

  function NextLive(P: Params, sys: System, step: Step): Db {
    match step
    case LiveInsert(op) => Insert(P, sys.live, op)
    case LiveGeneration(g) => SetGeneration(sys.live, g)
    case PutRows(id) =>
      if CanPut(sys, id) then Journaled(sys.live, PutAll(sys.live.store, sys.handles[id].xs).store) else sys.live
    case PromoteRows(id) => if Ready(sys, id) then sys.live.(store := Promoted(sys, id)) else sys.live
    case Publish(id, g, best) =>
      if id in sys.stages then PublishIfCurrent(P, sys.live, sys.stages[id], g, best).live else sys.live
    case _ => sys.live
  }

  function NextStages(P: Params, sys: System, step: Step): map<StagerId, Db> {
    match step
    case Take(id, g, best) =>
      var begun := BeginDelta(sys.live, g, best);
      sys.stages[id := if begun.Ok? then begun.value else sys.live]
    case StageInsert(id, op) =>
      if id in sys.stages then sys.stages[id := Insert(P, sys.stages[id], op)] else sys.stages
    case StageGeneration(id, g) =>
      if id in sys.stages then sys.stages[id := SetGeneration(sys.stages[id], g)] else sys.stages
    case _ => sys.stages
  }

  function NextHandles(P: Params, sys: System, step: Step): map<HandleId, Handle> {
    match step
    case AcceptRows(id, op) =>
      var accepted := Accept(P, sys.live.store, op);
      if id in sys.handles || accepted.None? then sys.handles else sys.handles[id := accepted.value]
    case PutRows(id) =>
      if CanPut(sys, id) then sys.handles[id := sys.handles[id].(stored := true)]
      else if id in sys.handles && !sys.handles[id].stored then sys.handles - {id}
      else sys.handles
    case LookAtBest(id) =>
      if id !in sys.handles || sys.handles[id].looked.Some? then sys.handles
      else
        var best := BestHeader(sys.live.store);
        if best.Err? then sys.handles - {id} else sys.handles[id := sys.handles[id].(looked := Some(best.value))]
    case PromoteRows(id) => if Ready(sys, id) then sys.handles - {id} else sys.handles
    case _ => sys.handles
  }

  /** One transaction for all rows; a known hash among them ends the call without any change. */
  predicate CanPut(sys: System, id: HandleId) {
    id in sys.handles && !sys.handles[id].stored && PutAll(sys.live.store, sys.handles[id].xs).result.Ok?
  }

  predicate Ready(sys: System, id: HandleId) {
    id in sys.handles && sys.handles[id].stored && sys.handles[id].looked.Some? && sys.handles[id].xs != []
  }

  function Promoted(sys: System, id: HandleId): Store
    requires Ready(sys, id)
  {
    PromoteBatch(sys.live.store, sys.handles[id].looked.value, sys.handles[id].xs).store
  }

  function Exec(P: Params, steps: seq<Step>): System {
    if steps == [] then INITIAL else Next(P, Exec(P, steps[..|steps| - 1]), steps[|steps| - 1])
  }

  ghost predicate StepFixesGenesis(P: Params, step: Step, genesis: BlockHeader) {
    step.LiveInsert? || step.StageInsert? || step.AcceptRows? ==> GenesisFixed(P, step.op, genesis)
  }

  /** A promotion that goes ahead fits the live store as it is by then. */
  ghost predicate Fitting(P: Params, sys: System, step: Step) {
    step.PromoteRows? && Ready(sys, step.handle) ==>
      var (s, handle) := (sys.live.store, sys.handles[step.handle]);
      && Indexed(P, s) && (handle.looked.value.Some? ==> forall x <- handle.xs :: x.height > 0)
      && PromotionFits(P, s, handle.looked.value, handle.xs)
  }

  /** A run with one genesis in which every promotion fits. Runs with undivided live insertions are among them. */
  ghost predicate Orderly(P: Params, steps: seq<Step>, genesis: BlockHeader) {
    steps != [] ==>
      var (init, last) := (steps[..|steps| - 1], steps[|steps| - 1]);
      Orderly(P, init, genesis) && StepFixesGenesis(P, last, genesis) && Fitting(P, Exec(P, init), last)
  }

  // ---- Invariant ----

  function WorkOf(H: HeaderTable, best: Option<Hash>): nat {
    if best.Some? && best.value in H then H[best.value].chainwork else 0
  }

  /** What a stage with a baseline has kept since it was taken, whatever the live database did meanwhile. */
  ghost predicate Tracks(live: Db, stage: Db, base: Option<Hash>) {
    && stage.journal <= stage.store.headers.Keys
    && (forall h <- stage.store.headers | h !in stage.journal ::
          h in live.store.headers && live.store.headers[h] == stage.store.headers[h])
    && (base.Some? ==> base.value in stage.store.headers && base.value !in stage.journal)
    && WorkOf(stage.store.headers, base) <= BestWork(stage.store)
    && (stage.store.best == base || WorkOf(stage.store.headers, base) < BestWork(stage.store))
  }

  ghost predicate StageValid(P: Params, live: Db, stage: Db, genesis: BlockHeader) {
    IndexedFrom(P, stage.store, genesis) && (stage.baseline.Some? ==> Tracks(live, stage, stage.baseline.value.best))
  }

  /** Rows of a call under way carry on from the live table, or are in it. */
  ghost predicate HandleValid(P: Params, live: Store, handle: Handle, genesis: BlockHeader) {
    && handle.xs != []
    && (if handle.stored then RowsStored(live.headers, handle.xs) else FollowAll(P, live.headers, handle.xs))
    && (forall x <- handle.xs | x.height == 0 :: x.header == genesis && handle.looked == Some(None))
    && (handle.looked.Some? && handle.looked.value.Some? ==> handle.looked.value.value.chainwork <= BestWork(live))
  }

  ghost predicate SystemIndexed(P: Params, sys: System, genesis: BlockHeader) {
    && IndexedFrom(P, sys.live.store, genesis)
    && sys.live.baseline.None? && sys.live.journal == {}
    && (forall id <- sys.handles :: HandleValid(P, sys.live.store, sys.handles[id], genesis))
    && forall id <- sys.stages :: StageValid(P, sys.live, sys.stages[id], genesis)
  }

  /** A row that some call has stored and not yet promoted. */
  ghost predicate Waiting(handles: map<HandleId, Handle>, x: StoredHeader) {
    exists id <- handles :: handles[id].stored && x in handles[id].xs
  }

  /** Only rows of calls under way are heavier than the best. */
  ghost predicate Settled(sys: System, s: Store) {
    forall h <- s.headers :: Carried(sys, s, s.headers[h])
  }

  ghost predicate Carried(sys: System, s: Store, x: StoredHeader) {
    x.chainwork <= BestWork(s) || x.chainwork <= BestWork(sys.live.store) || Waiting(sys.handles, x)
  }

  ghost predicate SystemValid(P: Params, sys: System, genesis: BlockHeader) {
    && SystemIndexed(P, sys, genesis)
    && Settled(sys, sys.live.store)
    && forall id <- sys.stages :: Settled(sys, sys.stages[id].store)
  }

  /** With no stored row waiting for its promotion, the live chain is valid in full. */
  lemma QuietIsValid(P: Params, sys: System, genesis: BlockHeader)
    requires SystemValid(P, sys, genesis) && forall id <- sys.handles :: !sys.handles[id].stored
    ensures ValidFrom(P, sys.live.store, genesis)
  {
    var s := sys.live.store;
    forall h <- s.headers ensures s.headers[h].chainwork <= BestWork(s) && s.headers[h].chainwork > 0 {
      assert Carried(sys, s, s.headers[h]);
      assert ValidEntry(P, s.headers, h);
    }
    if s.best.None? {
      assert s.headers == map[];
    }
  }

  // ---- Publication ----

  lemma TracksAgree(P: Params, live: Db, stage: Db, base: Option<Hash>, genesis: BlockHeader)
    requires IndexedFrom(P, live.store, genesis) && IndexedFrom(P, stage.store, genesis)
    requires Tracks(live, stage, base)
    requires JournalConsistent(live.store, stage)
    ensures Stageable(P, live, stage, genesis)
  {
  }

  /** The heavier of the two chains, on the union of their headers, is an indexed store. */
  lemma UnionStoreIndexed(P: Params, live: Db, stage: Db, genesis: BlockHeader)
    requires Stageable(P, live, stage, genesis)
    ensures var s := Store(stage.store.headers + live.store.headers, stage.store.canonical, stage.store.best);
            IndexedFrom(P, s, genesis) && BestWork(s) == BestWork(stage.store)
  {
    UnionValid(P, live.store.headers, stage.store.headers);
    if stage.store.best.Some? {
      AncestryStable(P, stage.store.headers, stage.store.headers + live.store.headers, stage.store.best.value);
    }
  }

  /** When exactly a conditional publication commits, and what it then installs. */
  lemma PublishOutcome(P: Params, live: Db, stage: Db, genesis: BlockHeader, g: U64, best: Option<Hash>)
    requires IndexedFrom(P, live.store, genesis) && StageValid(P, live, stage, genesis)
    ensures var out := PublishIfCurrent(P, live, stage, g, best);
            var current := live.generation == g && live.store.best == best;
            && (out.result == Ok(false) <==> !current)
            && (out.result == Ok(true) <==>
                current && ValidBaseline(stage, g, best) && JournalPresent(stage)
                && JournalConsistent(live.store, stage) && !GenesisBlocked(P, live, stage, genesis))
            && (out.result != Ok(true) ==> out.live == live)
            && (out.result == Ok(true) ==>
                && out.live == Installed(live,
                     Store(stage.store.headers + live.store.headers, stage.store.canonical, stage.store.best),
                     stage.generation)
                && PublishFull(live, stage) == Ok(out.live)
                && live.generation < out.live.generation
                && IndexedFrom(P, out.live.store, genesis)
                && Grows(live.store, out.live.store))
  {
    if live.generation == g && live.store.best == best && ValidBaseline(stage, g, best) {
      if JournalConsistent(live.store, stage) {
        TracksAgree(P, live, stage, best, genesis);
        DeltaRefinesFull(P, live, stage, genesis);
        assert WorkOf(stage.store.headers, best) == BestWork(live.store);
        UnionStoreIndexed(P, live, stage, genesis);
      }
    }
  }

  // ---- Steps ----

  lemma TracksGrowth(live: Db, live': Db, stage: Db, base: Option<Hash>)
    requires Tracks(live, stage, base) && Extends(live.store.headers, live'.store.headers)
    ensures Tracks(live', stage, base)
  {
  }

  lemma StageGrowth(P: Params, live: Db, stage: Db, op: Op, genesis: BlockHeader)
    requires StageValid(P, live, stage, genesis) && GenesisFixed(P, op, genesis)
    ensures StageValid(P, live, Insert(P, stage, op), genesis)
  {
    ApplyKeepsIndexed(P, stage.store, op, genesis);
  }

  lemma TakeIsValid(P: Params, live: Db, genesis: BlockHeader, g: U64, best: Option<Hash>)
    requires IndexedFrom(P, live.store, genesis) && live.baseline.None? && live.journal == {}
    ensures StageValid(P, live, live, genesis)
    ensures BeginDelta(live, g, best).Ok? ==> StageValid(P, live, BeginDelta(live, g, best).value, genesis)
  {
  }

  lemma HandleGrowth(P: Params, s: Store, s': Store, handle: Handle, genesis: BlockHeader)
    requires HandleValid(P, s, handle, genesis) && Grows(s, s')
    ensures HandleValid(P, s', handle, genesis)
  {
    if !handle.stored {
      FollowAllStable(P, s.headers, s'.headers, handle.xs);
    }
  }

  /** Committing the rows of a call keeps the index; the rows wait for their promotion. */
  lemma PutKeepsIndexed(P: Params, s: Store, handle: Handle, genesis: BlockHeader)
    requires IndexedFrom(P, s, genesis) && HandleValid(P, s, handle, genesis) && !handle.stored
    requires PutAll(s, handle.xs).result.Ok?
    ensures var s' := PutAll(s, handle.xs).store;
            && IndexedFrom(P, s', genesis) && Grows(s, s')
            && HandleValid(P, s', handle.(stored := true), genesis)
            && forall h <- s'.headers | h !in s.headers :: s'.headers[h] in handle.xs
  {
    var s' := PutAll(s, handle.xs).store;
    PutAllIff(s, handle.xs);
    FollowAllCommits(P, s.headers, handle.xs, s'.headers);
    Adopted(P, s, s'.headers);
  }

  lemma PromoteKeepsIndexed(P: Params, s: Store, handle: Handle, genesis: BlockHeader)
    requires IndexedFrom(P, s, genesis) && HandleValid(P, s, handle, genesis)
    requires handle.stored && handle.looked.Some? && PromotionFits(P, s, handle.looked.value, handle.xs)
    ensures var s' := PromoteBatch(s, handle.looked.value, handle.xs).store;
            && IndexedFrom(P, s', genesis) && Grows(s, s') && s'.headers == s.headers
            && forall x <- handle.xs :: x.chainwork <= BestWork(s')
  {
    PromotionFitsIff(P, s, handle.looked.value, handle.xs);
  }

  lemma LiveStep(P: Params, sys: System, step: Step, genesis: BlockHeader)
    requires SystemIndexed(P, sys, genesis) && StepFixesGenesis(P, step, genesis) && Fitting(P, sys, step)
    ensures var live' := NextLive(P, sys, step);
            && IndexedFrom(P, live'.store, genesis) && live'.baseline.None? && live'.journal == {}
            && Grows(sys.live.store, live'.store)
  {
    match step
    case LiveInsert(op) => ApplyKeepsIndexed(P, sys.live.store, op, genesis);
    case PutRows(id) =>
      if CanPut(sys, id) {
        PutKeepsIndexed(P, sys.live.store, sys.handles[id], genesis);
      }
    case PromoteRows(id) =>
      if Ready(sys, id) {
        PromoteKeepsIndexed(P, sys.live.store, sys.handles[id], genesis);
      }
    case Publish(id, g, best) =>
      if id in sys.stages {
        PublishKeepsIndexed(P, sys.live, sys.stages[id], genesis, g, best);
      }
    case _ =>
  }

  lemma PublishKeepsIndexed(P: Params, live: Db, stage: Db, genesis: BlockHeader, g: U64, best: Option<Hash>)
    requires IndexedFrom(P, live.store, genesis) && StageValid(P, live, stage, genesis)
    requires live.baseline.None? && live.journal == {}
    ensures var live' := PublishIfCurrent(P, live, stage, g, best).live;
            && IndexedFrom(P, live'.store, genesis) && live'.baseline.None? && live'.journal == {}
            && Grows(live.store, live'.store)
  {
    PublishOutcome(P, live, stage, genesis, g, best);
  }

  lemma AcceptedIsValid(P: Params, s: Store, op: Op, genesis: BlockHeader)
    requires IndexedFrom(P, s, genesis) && GenesisFixed(P, op, genesis) && Accept(P, s, op).Some?
    ensures HandleValid(P, s, Accept(P, s, op).value, genesis)
  {
    AcceptedFollow(P, s, op);
  }

  lemma HandlesStep(P: Params, sys: System, step: Step, genesis: BlockHeader, id: HandleId)
    requires SystemIndexed(P, sys, genesis) && StepFixesGenesis(P, step, genesis) && Fitting(P, sys, step)
    requires id in NextHandles(P, sys, step)
    ensures HandleValid(P, NextLive(P, sys, step).store, NextHandles(P, sys, step)[id], genesis)
  {
    LiveStep(P, sys, step, genesis);
    if id in sys.handles && NextHandles(P, sys, step)[id] == sys.handles[id] {
      HandleGrowth(P, sys.live.store, NextLive(P, sys, step).store, sys.handles[id], genesis);
    } else if step.AcceptRows? {
      AcceptedIsValid(P, sys.live.store, step.op, genesis);
    } else if step.PutRows? {
      PutKeepsIndexed(P, sys.live.store, sys.handles[id], genesis);
    }
  }

  lemma StagesStep(P: Params, sys: System, step: Step, genesis: BlockHeader, id: StagerId)
    requires SystemIndexed(P, sys, genesis) && StepFixesGenesis(P, step, genesis) && Fitting(P, sys, step)
    requires id in NextStages(P, sys, step)
    ensures StageValid(P, NextLive(P, sys, step), NextStages(P, sys, step)[id], genesis)
  {
    LiveStep(P, sys, step, genesis);
    if id in sys.stages && NextStages(P, sys, step)[id] == sys.stages[id] {
      var stage := sys.stages[id];
      if stage.baseline.Some? {
        TracksGrowth(sys.live, NextLive(P, sys, step), stage, stage.baseline.value.best);
      }
    } else if step.Take? {
      TakeIsValid(P, sys.live, genesis, step.generation, step.best);
    } else if step.StageInsert? {
      StageGrowth(P, sys.live, sys.stages[id], step.op, genesis);
    }
  }

  lemma StepKeepsIndexed(P: Params, sys: System, step: Step, genesis: BlockHeader)
    requires SystemIndexed(P, sys, genesis) && StepFixesGenesis(P, step, genesis) && Fitting(P, sys, step)
    ensures SystemIndexed(P, Next(P, sys, step), genesis)
  {
    LiveStep(P, sys, step, genesis);
    var sys' := Next(P, sys, step);
    forall id <- sys'.handles ensures HandleValid(P, sys'.live.store, sys'.handles[id], genesis) {
      HandlesStep(P, sys, step, genesis, id);
    }
    forall id <- sys'.stages ensures StageValid(P, sys'.live, sys'.stages[id], genesis) {
      StagesStep(P, sys, step, genesis, id);
    }
  }

  // ---- Nothing heavier than the best, but for rows that wait ----

  lemma WaitingStep(P: Params, sys: System, step: Step, genesis: BlockHeader, x: StoredHeader)
    requires SystemIndexed(P, sys, genesis) && StepFixesGenesis(P, step, genesis) && Fitting(P, sys, step)
    requires Waiting(sys.handles, x)
    ensures Waiting(NextHandles(P, sys, step), x) || x.chainwork <= BestWork(NextLive(P, sys, step).store)
  {
    var id :| id in sys.handles && sys.handles[id].stored && x in sys.handles[id].xs;
    if step == PromoteRows(id) && Ready(sys, id) {
      PromoteKeepsIndexed(P, sys.live.store, sys.handles[id], genesis);
    } else {
      StoredHandlePersists(P, sys, step, id);
    }
  }

  /** A call whose rows are stored goes on until it promotes them. */
  lemma StoredHandlePersists(P: Params, sys: System, step: Step, id: HandleId)
    requires Indexed(P, sys.live.store) && id in sys.handles && sys.handles[id].stored
    requires !(step == PromoteRows(id) && Ready(sys, id))
    ensures var handles := NextHandles(P, sys, step);
            id in handles && handles[id].stored && handles[id].xs == sys.handles[id].xs
  {
    assert BestHeader(sys.live.store).Ok?;
  }

  lemma CarriedStep(P: Params, sys: System, step: Step, genesis: BlockHeader, s: Store, s': Store, x: StoredHeader)
    requires SystemIndexed(P, sys, genesis) && StepFixesGenesis(P, step, genesis) && Fitting(P, sys, step)
    requires Carried(sys, s, x) && BestWork(s) <= BestWork(s')
    ensures Carried(Next(P, sys, step), s', x)
  {
    LiveStep(P, sys, step, genesis);
    if Waiting(sys.handles, x) {
      WaitingStep(P, sys, step, genesis, x);
    }
  }

  /** A row that a publication adds comes from the stage, whose best is then live. */
  lemma PublishedRow(P: Params, live: Db, stage: Db, genesis: BlockHeader, g: U64, best: Option<Hash>, h: Hash)
    requires IndexedFrom(P, live.store, genesis) && StageValid(P, live, stage, genesis)
    requires h in PublishIfCurrent(P, live, stage, g, best).live.store.headers && h !in live.store.headers
    ensures var s' := PublishIfCurrent(P, live, stage, g, best).live.store;
            && h in stage.store.headers && s'.headers[h] == stage.store.headers[h]
            && BestWork(stage.store) <= BestWork(s')
  {
    PublishOutcome(P, live, stage, genesis, g, best);
  }

  lemma PublishedRowCarried(P: Params, sys: System, step: Step, genesis: BlockHeader, h: Hash)
    requires SystemIndexed(P, sys, genesis) && StepFixesGenesis(P, step, genesis) && Fitting(P, sys, step)
    requires step.Publish? && step.id in sys.stages && Settled(sys, sys.stages[step.id].store)
    requires h in NextLive(P, sys, step).store.headers && h !in sys.live.store.headers
    ensures Carried(Next(P, sys, step), NextLive(P, sys, step).store, NextLive(P, sys, step).store.headers[h])
  {
    var (stage, s') := (sys.stages[step.id], NextLive(P, sys, step).store);
    PublishedRow(P, sys.live, stage, genesis, step.generation, step.best, h);
    assert Carried(sys, stage.store, stage.store.headers[h]);
    CarriedStep(P, sys, step, genesis, stage.store, s', stage.store.headers[h]);
  }

  lemma NewRowsCarried(P: Params, sys: System, step: Step, genesis: BlockHeader, h: Hash)
    requires SystemValid(P, sys, genesis) && StepFixesGenesis(P, step, genesis) && Fitting(P, sys, step)
    requires h in Next(P, sys, step).live.store.headers && h !in sys.live.store.headers
    ensures Carried(Next(P, sys, step), Next(P, sys, step).live.store, Next(P, sys, step).live.store.headers[h])
  {
    var (s, sys') := (sys.live.store, Next(P, sys, step));
    match step
    case LiveInsert(op) => ApplyKeepsIndexed(P, s, op, genesis);
    case PutRows(id) =>
      if CanPut(sys, id) {
        PutKeepsIndexed(P, s, sys.handles[id], genesis);
        assert id in sys'.handles && sys'.handles[id].stored && sys'.live.store.headers[h] in sys'.handles[id].xs;
      }
    case PromoteRows(id) =>
      if Ready(sys, id) {
        PromoteKeepsIndexed(P, s, sys.handles[id], genesis);
      }
    case Publish(id, g, best) =>
      if id in sys.stages {
        PublishedRowCarried(P, sys, step, genesis, h);
      }
    case _ =>
  }

  lemma LiveSettled(P: Params, sys: System, step: Step, genesis: BlockHeader)
    requires SystemValid(P, sys, genesis) && StepFixesGenesis(P, step, genesis) && Fitting(P, sys, step)
    ensures Settled(Next(P, sys, step), Next(P, sys, step).live.store)
  {
    LiveStep(P, sys, step, genesis);
    var (s, sys') := (sys.live.store, Next(P, sys, step));
    forall h <- sys'.live.store.headers ensures Carried(sys', sys'.live.store, sys'.live.store.headers[h]) {
      if h in s.headers {
        assert Carried(sys, s, s.headers[h]);
        CarriedStep(P, sys, step, genesis, s, sys'.live.store, s.headers[h]);
      } else {
        NewRowsCarried(P, sys, step, genesis, h);
      }
    }
  }

  /** What a stage was before the step: itself, or the live store it was taken from. */
  lemma StageOrigin(P: Params, sys: System, step: Step, genesis: BlockHeader, id: StagerId) returns (s: Store)
    requires SystemIndexed(P, sys, genesis) && StepFixesGenesis(P, step, genesis)
    requires id in NextStages(P, sys, step)
    ensures s == sys.live.store || (id in sys.stages && s == sys.stages[id].store)
    ensures Grows(s, NextStages(P, sys, step)[id].store) && NewCarried(s, NextStages(P, sys, step)[id].store)
  {
    s := if step.Take? && step.id == id then sys.live.store else sys.stages[id].store;
    if step.StageInsert? && step.id == id {
      ApplyKeepsIndexed(P, s, step.op, genesis);
    }
  }

  lemma StageSettled(P: Params, sys: System, step: Step, genesis: BlockHeader, id: StagerId)
    requires SystemValid(P, sys, genesis) && StepFixesGenesis(P, step, genesis) && Fitting(P, sys, step)
    requires id in NextStages(P, sys, step)
    ensures Settled(Next(P, sys, step), NextStages(P, sys, step)[id].store)
  {
    var (sys', s') := (Next(P, sys, step), NextStages(P, sys, step)[id].store);
    var s := StageOrigin(P, sys, step, genesis, id);
    assert Settled(sys, s);
    forall h <- s'.headers ensures Carried(sys', s', s'.headers[h]) {
      if h in s.headers {
        assert Carried(sys, s, s.headers[h]);
        CarriedStep(P, sys, step, genesis, s, s', s.headers[h]);
      }
    }
  }

  lemma StepKeepsValid(P: Params, sys: System, step: Step, genesis: BlockHeader)
    requires SystemValid(P, sys, genesis) && StepFixesGenesis(P, step, genesis) && Fitting(P, sys, step)
    ensures SystemValid(P, Next(P, sys, step), genesis)
  {
    StepKeepsIndexed(P, sys, step, genesis);
    LiveSettled(P, sys, step, genesis);
    var sys' := Next(P, sys, step);
    forall id <- sys'.stages ensures Settled(sys', sys'.stages[id].store) {
      StageSettled(P, sys, step, genesis, id);
    }
  }

  // ---- Runs ----

  /** After every orderly run, whatever the interleaving. */
  lemma {:induction false} RunsKeepSystemValid(P: Params, steps: seq<Step>, genesis: BlockHeader)
    requires Orderly(P, steps, genesis)
    ensures SystemValid(P, Exec(P, steps), genesis)
    decreases |steps|
  {
    if steps != [] {
      RunsKeepSystemValid(P, steps[..|steps| - 1], genesis);
      StepKeepsValid(P, Exec(P, steps[..|steps| - 1]), steps[|steps| - 1], genesis);
    }
  }

  lemma {:induction false} OrderlyPrefix(P: Params, steps: seq<Step>, genesis: BlockHeader, i: nat)
    requires Orderly(P, steps, genesis) && i <= |steps|
    ensures Orderly(P, steps[..i], genesis)
    decreases |steps|
  {
    if i == |steps| {
      assert steps[..i] == steps;
    } else {
      OrderlyPrefix(P, steps[..|steps| - 1], genesis, i);
      assert steps[..|steps| - 1][..i] == steps[..i];
    }
  }

  /** Between any two moments of any orderly run nothing live is lost, and best chainwork falls nowhere. */
  lemma {:induction false} LiveGrows(P: Params, steps: seq<Step>, genesis: BlockHeader, i: nat)
    requires Orderly(P, steps, genesis) && i <= |steps|
    ensures Grows(Exec(P, steps[..i]).live.store, Exec(P, steps).live.store)
    decreases |steps|
  {
    if i == |steps| {
      assert steps[..i] == steps;
    } else {
      var init := steps[..|steps| - 1];
      LiveGrows(P, init, genesis, i);
      assert init[..i] == steps[..i];
      RunsKeepSystemValid(P, init, genesis);
      OrderlyPrefix(P, steps, genesis, i);
      RunsKeepSystemValid(P, steps[..i], genesis);
      LiveStep(P, Exec(P, init), steps[|steps| - 1], genesis);
    }
  }

  /** If the live best hash is the same at two moments, it was the same at every moment in between. */
  lemma BestHasNoAba(P: Params, steps: seq<Step>, genesis: BlockHeader, i: nat, j: nat)
    requires Orderly(P, steps, genesis) && i <= j <= |steps|
    requires Exec(P, steps[..i]).live.store.best == Exec(P, steps).live.store.best
    ensures Exec(P, steps[..j]).live.store.best == Exec(P, steps).live.store.best
  {
    LiveGrows(P, steps, genesis, i);
    LiveGrows(P, steps, genesis, j);
    OrderlyPrefix(P, steps, genesis, j);
    LiveGrows(P, steps[..j], genesis, i);
    assert steps[..j][..i] == steps[..i];
    OrderlyPrefix(P, steps, genesis, i);
    RunsKeepSystemValid(P, steps[..i], genesis);
  }

  /** At every moment of the run the live index stays proper and the live store grows. */
  ghost predicate Sound(P: Params, steps: seq<Step>) {
    steps != [] ==>
      var (init, last) := (steps[..|steps| - 1], steps[|steps| - 1]);
      && Sound(P, init)
      && Indexed(P, Exec(P, steps).live.store) && Grows(Exec(P, init).live.store, Exec(P, steps).live.store)
  }

  /** Exactly the runs in which every promotion fits keep the live index proper and the live store growing. */
  lemma {:induction false} SoundIffOrderly(P: Params, steps: seq<Step>, genesis: BlockHeader)
    requires forall step <- steps :: StepFixesGenesis(P, step, genesis)
    ensures Sound(P, steps) <==> Orderly(P, steps, genesis)
    decreases |steps|
  {
    if steps != [] {
      var (init, last) := (steps[..|steps| - 1], steps[|steps| - 1]);
      SoundIffOrderly(P, init, genesis);
      if Orderly(P, init, genesis) {
        RunsKeepSystemValid(P, init, genesis);
        SoundStepIff(P, Exec(P, init), last, genesis);
      }
    }
  }

  lemma SoundStepIff(P: Params, sys: System, step: Step, genesis: BlockHeader)
    requires SystemIndexed(P, sys, genesis) && StepFixesGenesis(P, step, genesis)
    ensures Indexed(P, NextLive(P, sys, step).store) && Grows(sys.live.store, NextLive(P, sys, step).store)
       <==> Fitting(P, sys, step)
  {
    if Fitting(P, sys, step) {
      LiveStep(P, sys, step, genesis);
    } else {
      var handle := sys.handles[step.handle];
      assert HandleValid(P, sys.live.store, handle, genesis);
      PromotionFitsIff(P, sys.live.store, handle.looked.value, handle.xs);
    }
  }

  /** Runs with undivided insertions only: the live chain is valid in full at every moment. */
  lemma UndividedRunsKeepValid(P: Params, steps: seq<Step>, genesis: BlockHeader)
    requires forall step <- steps :: !step.AcceptRows? && StepFixesGenesis(P, step, genesis)
    ensures ValidFrom(P, Exec(P, steps).live.store, genesis) && Orderly(P, steps, genesis)
  {
    NoHandles(P, steps, genesis);
    RunsKeepSystemValid(P, steps, genesis);
    QuietIsValid(P, Exec(P, steps), genesis);
  }

  lemma {:induction false} NoHandles(P: Params, steps: seq<Step>, genesis: BlockHeader)
    requires forall step <- steps :: !step.AcceptRows? && StepFixesGenesis(P, step, genesis)
    ensures Exec(P, steps).handles == map[] && Orderly(P, steps, genesis)
    decreases |steps|
  {
    if steps != [] {
      NoHandles(P, steps[..|steps| - 1], genesis);
    }
  }
}
