/** Publication of stages whose journal started late, after some of their insertions. */
module LateJournals {
  import opened Wrappers
  import opened ChainModel
  import opened ChainInvariant
  import opened Snapshot
  import opened SnapshotRefinement

  /** The row's parent is live or journaled as well. */
  ghost predicate ParentArrives(live: Store, staged: Db, x: StoredHeader) {
    x.height > 0 ==> x.header.prevBlock in staged.journal + live.headers.Keys
  }

  ghost predicate ParentsArrive(live: Store, staged: Db)
    requires JournalPresent(staged)
  {
    forall j <- staged.journal :: ParentArrives(live, staged, staged.store.headers[j])
  }

  lemma MergedEntryIff(P: Params, live: Store, staged: Db, h: Hash)
    requires ValidHeaders(P, live.headers) && ValidHeaders(P, staged.store.headers)
    requires Agree(live.headers, staged.store.headers) && JournalPresent(staged)
    requires h in WithJournal(live, staged).headers
    ensures var M := WithJournal(live, staged).headers; ValidEntry(P, M, h) <==> ParentArrives(live, staged, M[h])
  {
    if h in live.headers {
      assert ValidEntry(P, live.headers, h);
    } else {
      assert ValidEntry(P, staged.store.headers, h);
    }
  }

  lemma JournalClosedIff(P: Params, live: Store, staged: Db)
    requires ValidHeaders(P, live.headers) && ValidHeaders(P, staged.store.headers)
    requires Agree(live.headers, staged.store.headers) && JournalPresent(staged)
    ensures ValidHeaders(P, WithJournal(live, staged).headers) <==> ParentsArrive(live, staged)
  {
    var M := WithJournal(live, staged).headers;
    if ValidHeaders(P, M) {
      forall j <- staged.journal ensures ParentArrives(live, staged, staged.store.headers[j]) {
        assert ValidEntry(P, M, j);
        MergedEntryIff(P, live, staged, j);
      }
    }
    if ParentsArrive(live, staged) {
      forall h <- M ensures ValidEntry(P, M, h) {
        MergedEntryIff(P, live, staged, h);
        if h in live.headers {
          assert ValidEntry(P, live.headers, h);
        }
      }
    }
  }

  /** The staged best is among the merged headers once the suffix is covered. */
  lemma BestCovered(P: Params, live: Store, merged: Store, staged: Db, genesis: BlockHeader, first: nat)
    requires IndexedFrom(P, live, genesis) && IndexedFrom(P, staged.store, genesis) && staged.store.best.Some?
    requires DivergeAt(live.canonical, staged.store.canonical, first)
    requires Extends(live.headers, merged.headers) && SuffixCovered(merged, staged, first)
    ensures staged.store.best.value in merged.headers
  {
    var top := staged.store.headers[staged.store.best.value].height;
    assert staged.store.canonical[top] == staged.store.best.value;
    if top < first {
      assert SameAt(live.canonical, staged.store.canonical, top);
    }
  }

  /** What a successful publication installs, whatever the journal holds: the staged index and best. */
  lemma PublishedStore(P: Params, live: Db, staged: Db, genesis: BlockHeader, g: U64, best: Option<Hash>)
    requires IndexedFrom(P, live.store, genesis) && IndexedFrom(P, staged.store, genesis)
    requires Agree(live.store.headers, staged.store.headers)
    requires PublishIfCurrent(P, live, staged, g, best).result == Ok(true)
    ensures JournalPresent(staged)
    ensures PublishIfCurrent(P, live, staged, g, best).live.store
         == Store(WithJournal(live.store, staged).headers, staged.store.canonical, staged.store.best)
    ensures staged.store.best.Some? ==> staged.store.best.value in WithJournal(live.store, staged).headers
  {
    var merged := WithJournal(live.store, staged);
    var r := SuffixDivergence(P, live.store, merged, staged, genesis);
    PublishSuffixEvaluates(P, merged, staged, TipOf(live.store), TipOf(staged.store), r);
    if r.Some? {
      SplicedIsStaged(live.store.canonical, staged.store.canonical, r.value);
      if staged.store.best.Some? {
        BestCovered(P, live.store, merged, staged, genesis, r.value);
      }
    }
  }

  /**
   * A stage whose journal started after some of its insertions can hold unjournaled headers that are not live. A
   * successful publication then leaves a valid live chain exactly when the parents of all journaled headers arrive too.
   */
  lemma PublishedValidIff(P: Params, live: Db, staged: Db, genesis: BlockHeader, g: U64, best: Option<Hash>)
    requires ValidFrom(P, live.store, genesis) && ValidFrom(P, staged.store, genesis)
    requires Agree(live.store.headers, staged.store.headers)
    requires live.store.best.Some? ==> live.store.best.value in staged.store.headers
    requires PublishIfCurrent(P, live, staged, g, best).result == Ok(true)
    ensures JournalPresent(staged)
    ensures ValidFrom(P, PublishIfCurrent(P, live, staged, g, best).live.store, genesis)
       <==> ParentsArrive(live.store, staged)
  {
    PublishedStore(P, live, staged, genesis, g, best);
    JournalClosedIff(P, live.store, staged);
    if ParentsArrive(live.store, staged) {
      MergedValid(P, live.store, staged, genesis);
    }
  }

  lemma MergedValid(P: Params, live: Store, staged: Db, genesis: BlockHeader)
    requires ValidFrom(P, live, genesis) && ValidFrom(P, staged.store, genesis) && JournalPresent(staged)
    requires Agree(live.headers, staged.store.headers) && ValidHeaders(P, WithJournal(live, staged).headers)
    requires live.best.Some? ==> live.best.value in staged.store.headers
    requires staged.store.best.Some? ==> staged.store.best.value in WithJournal(live, staged).headers
    ensures ValidFrom(P, Store(WithJournal(live, staged).headers, staged.store.canonical, staged.store.best), genesis)
  {
    var M := WithJournal(live, staged).headers;
    if staged.store.best.Some? {
      AncestryStable(P, staged.store.headers, M, staged.store.best.value);
    }
    forall h <- M ensures M[h].chainwork <= BestWork(staged.store) {
      MergedLighter(P, live, staged, h);
    }
  }

  lemma MergedLighter(P: Params, live: Store, staged: Db, h: Hash)
    requires Valid(P, live) && Valid(P, staged.store) && Agree(live.headers, staged.store.headers)
    requires JournalPresent(staged) && h in WithJournal(live, staged).headers
    requires live.best.Some? ==> live.best.value in staged.store.headers
    ensures WithJournal(live, staged).headers[h].chainwork <= BestWork(staged.store)
  {
    if h in live.headers {
      assert live.headers[h].chainwork <= live.headers[live.best.value].chainwork;
    }
  }
}
