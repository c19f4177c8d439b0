/**
 * The rules of the chain over whole runs of the publication protocol. The publisher checks proof of work and linkage of
 * journaled headers, but neither difficulty nor checkpoints; that the live database meets them all the same rests on
 * every stage having been filled by validated insertion.
 */
module ProtocolConsensus {
  import opened Wrappers
  import opened ChainModel
  import opened ChainInvariant
  import opened ChainConsensus
  import opened LiveHandles
  import opened Snapshot
  import opened SnapshotProtocol

  /** The table holds stored rows and accepted rows, and nothing else. */
  ghost predicate Within(T: HeaderTable, H: HeaderTable, xs: seq<StoredHeader>) {
    forall h <- T :: (h in H && H[h] == T[h]) || (T[h] in xs && T[h].hash == h)
  }

  /** An accepted row met the rules on some table made of stored rows and rows accepted with it. */
  ghost predicate RowMet(P: Params, H: HeaderTable, xs: seq<StoredHeader>, x: StoredHeader) {
    exists T: HeaderTable :: MeetsRules(P, T, x) && Within(T, H, xs)
  }

  ghost predicate RowsMet(P: Params, H: HeaderTable, xs: seq<StoredHeader>) {
    forall x <- xs :: RowMet(P, H, xs, x)
  }

  lemma RowsMetGrow(P: Params, H: HeaderTable, H': HeaderTable, xs: seq<StoredHeader>)
    requires RowsMet(P, H, xs) && Extends(H, H')
    ensures RowsMet(P, H', xs)
  {
    forall x <- xs ensures RowMet(P, H', xs, x) {
      assert RowMet(P, H, xs, x);
      var T: HeaderTable :| MeetsRules(P, T, x) && Within(T, H, xs);
      assert Within(T, H', xs);
    }
  }

  lemma {:induction false} AcceptedRowsMet(P: Params, H: HeaderTable, headers: seq<BlockHeader>)
    requires AcceptAll(P, H, headers).Ok?
    ensures RowsMet(P, H, AcceptAll(P, H, headers).value)
    decreases |headers|
  {
    if headers == [] {
    } else if P.hash(headers[0]) in H {
      AcceptedRowsMet(P, H, headers[1..]);
    } else {
      var x := AdmitBatched(P, H, headers[0]).value;
      AdmitOrdersAgree(P, H, headers[0]);
      AdmittedMeetsRules(P, H, headers[0], x);
      var H1 := H[x.hash := x];
      AcceptedRowsMet(P, H1, headers[1..]);
      LaterRowsMet(P, H, x, AcceptAll(P, H1, headers[1..]).value);
    }
  }

  lemma LaterRowsMet(P: Params, H: HeaderTable, x: StoredHeader, rest: seq<StoredHeader>)
    requires MeetsRules(P, H, x) && RowsMet(P, H[x.hash := x], rest)
    ensures RowsMet(P, H, [x] + rest)
  {
    var xs := [x] + rest;
    forall y <- xs ensures RowMet(P, H, xs, y) {
      if y == x {
        assert Within(H, H, xs);
      } else {
        assert RowMet(P, H[x.hash := x], rest, y);
        var T: HeaderTable :| MeetsRules(P, T, y) && Within(T, H[x.hash := x], rest);
        assert Within(T, H, xs);
      }
    }
  }

  lemma AcceptMet(P: Params, s: Store, op: Op)
    requires Accept(P, s, op).Some?
    ensures RowsMet(P, s.headers, Accept(P, s, op).value.xs)
  {
    var xs := Accept(P, s, op).value.xs;
    match op
    case Genesis(_) => assert Within(s.headers, s.headers, xs) && MeetsRules(P, s.headers, xs[0]);
    case Single(header) =>
      AdmittedMeetsRules(P, s.headers, header, xs[0]);
      assert Within(s.headers, s.headers, xs);
    case Batch(headers) => AcceptedRowsMet(P, s.headers, headers);
  }

  lemma PutKeepsConsensus(P: Params, H: HeaderTable, xs: seq<StoredHeader>, H': HeaderTable)
    requires Consensus(P, H) && RowsMet(P, H, xs) && OverlayOf(H, xs, H')
    ensures Consensus(P, H')
  {
    forall h <- H' ensures MeetsRules(P, H', H'[h]) {
      if h in H {
        RulesStable(P, H, H', H[h]);
      } else {
        assert RowMet(P, H, xs, H'[h]);
        var T: HeaderTable :| MeetsRules(P, T, H'[h]) && Within(T, H, xs);
        assert Extends(T, H');
        RulesStable(P, T, H', H'[h]);
      }
    }
  }

  lemma UnionConsensus(P: Params, H: HeaderTable, H': HeaderTable)
    requires Consensus(P, H) && Consensus(P, H') && Agree(H, H')
    ensures Consensus(P, H' + H)
  {
    var U := H' + H;
    forall h <- U ensures MeetsRules(P, U, U[h]) {
      if h in H {
        RulesStable(P, H, U, H[h]);
      } else {
        RulesStable(P, H', U, H'[h]);
      }
    }
  }

  // ---- Steps and runs ----

  ghost predicate SystemConsensus(P: Params, sys: System) {
    && Consensus(P, sys.live.store.headers)
    && (forall id <- sys.stages :: Consensus(P, sys.stages[id].store.headers))
    && forall id <- sys.handles | !sys.handles[id].stored :: RowsMet(P, sys.live.store.headers, sys.handles[id].xs)
  }

  lemma PublishKeepsConsensus(P: Params, live: Db, stage: Db, genesis: BlockHeader, g: U64, best: Option<Hash>)
    requires IndexedFrom(P, live.store, genesis) && StageValid(P, live, stage, genesis)
    requires Consensus(P, live.store.headers) && Consensus(P, stage.store.headers)
    ensures Consensus(P, PublishIfCurrent(P, live, stage, g, best).live.store.headers)
  {
    PublishOutcome(P, live, stage, genesis, g, best);
    if PublishIfCurrent(P, live, stage, g, best).result == Ok(true) {
      TracksAgree(P, live, stage, stage.baseline.value.best, genesis);
      UnionConsensus(P, live.store.headers, stage.store.headers);
    }
  }

  lemma LiveKeepsConsensus(P: Params, sys: System, step: Step, genesis: BlockHeader)
    requires SystemIndexed(P, sys, genesis) && StepFixesGenesis(P, step, genesis) && Fitting(P, sys, step)
    requires SystemConsensus(P, sys)
    ensures Consensus(P, NextLive(P, sys, step).store.headers)
  {
    match step
    case LiveInsert(op) => ApplyKeepsConsensus(P, sys.live.store, op);
    case PutRows(id) =>
      if CanPut(sys, id) {
        PutAllIff(sys.live.store, sys.handles[id].xs);
        PutKeepsConsensus(P, sys.live.store.headers, sys.handles[id].xs, NextLive(P, sys, step).store.headers);
      }
    case PromoteRows(id) =>
      if Ready(sys, id) {
        PromoteKeepsIndexed(P, sys.live.store, sys.handles[id], genesis);
      }
    case Publish(id, g, best) =>
      if id in sys.stages {
        PublishKeepsConsensus(P, sys.live, sys.stages[id], genesis, g, best);
      }
    case _ =>
  }

  lemma StageKeepsConsensus(P: Params, sys: System, step: Step, genesis: BlockHeader, id: StagerId)
    requires SystemIndexed(P, sys, genesis) && SystemConsensus(P, sys) && id in NextStages(P, sys, step)
    ensures Consensus(P, NextStages(P, sys, step)[id].store.headers)
  {
    if step.StageInsert? && step.id == id {
      ApplyKeepsConsensus(P, sys.stages[id].store, step.op);
    }
  }

  lemma HandleKeepsConsensus(P: Params, sys: System, step: Step, genesis: BlockHeader, id: HandleId)
    requires SystemIndexed(P, sys, genesis) && StepFixesGenesis(P, step, genesis) && Fitting(P, sys, step)
    requires SystemConsensus(P, sys) && id in NextHandles(P, sys, step) && !NextHandles(P, sys, step)[id].stored
    ensures RowsMet(P, NextLive(P, sys, step).store.headers, NextHandles(P, sys, step)[id].xs)
  {
    LiveStep(P, sys, step, genesis);
    if id in sys.handles {
      assert !sys.handles[id].stored && NextHandles(P, sys, step)[id].xs == sys.handles[id].xs;
      RowsMetGrow(P, sys.live.store.headers, NextLive(P, sys, step).store.headers, sys.handles[id].xs);
    } else {
      AcceptMet(P, sys.live.store, step.op);
    }
  }

  lemma StepKeepsConsensus(P: Params, sys: System, step: Step, genesis: BlockHeader)
    requires SystemIndexed(P, sys, genesis) && StepFixesGenesis(P, step, genesis) && Fitting(P, sys, step)
    requires SystemConsensus(P, sys)
    ensures SystemConsensus(P, Next(P, sys, step))
  {
    LiveKeepsConsensus(P, sys, step, genesis);
    forall id <- NextStages(P, sys, step) ensures Consensus(P, NextStages(P, sys, step)[id].store.headers) {
      StageKeepsConsensus(P, sys, step, genesis, id);
    }
    forall id <- NextHandles(P, sys, step) | !NextHandles(P, sys, step)[id].stored
      ensures RowsMet(P, NextLive(P, sys, step).store.headers, NextHandles(P, sys, step)[id].xs)
    {
      HandleKeepsConsensus(P, sys, step, genesis, id);
    }
  }

  /** After every orderly run of the protocol all live headers meet difficulty and checkpoints. */
  lemma {:induction false} RunsKeepLiveConsensus(P: Params, steps: seq<Step>, genesis: BlockHeader)
    requires Orderly(P, steps, genesis)
    ensures SystemConsensus(P, Exec(P, steps))
    decreases |steps|
  {
    if steps != [] {
      var init := steps[..|steps| - 1];
      RunsKeepLiveConsensus(P, init, genesis);
      RunsKeepSystemValid(P, init, genesis);
      StepKeepsConsensus(P, Exec(P, init), steps[|steps| - 1], genesis);
    }
  }
}
