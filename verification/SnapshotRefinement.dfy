/** The delta publisher against the full publisher, and the divergence scan against its specification. */
module SnapshotRefinement {
  import opened Wrappers
  import opened Pow
  import opened ChainModel
  import opened ChainInvariant
  import opened Snapshot

  // ---- The divergence scan ----

  /** The indexes agree on every height below `first` and differ at `first`. */
  ghost predicate DivergeAt(a: map<nat, Hash>, b: map<nat, Hash>, first: nat) {
    && (forall k: nat | k < first :: SameAt(a, b, k))
    && !SameAt(a, b, first)
  }

  ghost predicate SameAt(a: map<nat, Hash>, b: map<nat, Hash>, k: nat) {
    (k in a <==> k in b) && (k in a && k in b ==> a[k] == b[k])
  }

  /** Canonical chains that meet at a height share everything below it. */
  lemma SharedBelow(P: Params, H: HeaderTable, H': HeaderTable, b: Hash, b': Hash, i: nat, j: nat)
    requires ValidHeaders(P, H) && ValidHeaders(P, H') && Agree(H, H') && b in H && b' in H'
    requires j <= i <= H[b].height && i <= H'[b'].height
    requires AncestorHash(P, H, b, i) == AncestorHash(P, H', b', i)
    ensures AncestorHash(P, H, b, j) == AncestorHash(P, H', b', j)
  {
    AncestorOfAncestor(P, H, b, i, j);
    AncestorOfAncestor(P, H', b', i, j);
    AncestorStable(P, H, H', AncestorHash(P, H, b, i), j);
  }

  lemma SharedRoot(P: Params, H: HeaderTable, H': HeaderTable, b: Hash, b': Hash, genesis: BlockHeader)
    requires ValidHeaders(P, H) && ValidHeaders(P, H') && b in H && b' in H'
    requires SingleRoot(H, genesis) && SingleRoot(H', genesis)
    ensures AncestorHash(P, H, b, 0) == AncestorHash(P, H', b', 0) == P.hash(genesis)
  {
    assert ValidEntry(P, H, AncestorHash(P, H, b, 0));
    assert ValidEntry(P, H', AncestorHash(P, H', b', 0));
  }

  lemma {:induction false} ScanFinds(a: map<nat, Hash>, b: map<nat, Hash>, height: nat)
    requires forall k: nat | k <= height :: k in a && k in b
    requires forall i: nat, j: nat | j <= i <= height && a[i] == b[i] :: a[j] == b[j]
    requires a[0] == b[0]
    requires height < U32_MAX || (height == U32_MAX && a[height] != b[height])
    ensures var r := Scan(a, b, height);
            && r.Ok? && r.value <= height + 1
            && (forall k: nat | k < r.value :: a[k] == b[k])
            && (forall k: nat | r.value <= k <= height :: a[k] != b[k])
    decreases height
  {
    if a[height] != b[height] {
      ScanFinds(a, b, height - 1);
    }
  }

  ghost function TipOf(s: Store): Option<Tip> {
    match s.best
    case None => None
    case Some(b) => if b in s.headers then Some(Tip(s.headers[b].height, b)) else None
  }

  lemma ReadTipOfIndexed(P: Params, s: Store)
    requires Indexed(P, s)
    ensures ReadTip(s) == Ok(TipOf(s))
  {
  }

  /**
   * On two indexed chains with one genesis the scan never fails. It reports nothing exactly when the indexes are
   * equal, and otherwise the least height at which they differ; every height both have from there on differs.
   */
  lemma DivergenceIsLeast(P: Params, live: Store, staged: Store, genesis: BlockHeader)
    requires IndexedFrom(P, live, genesis) && IndexedFrom(P, staged, genesis) && Agree(live.headers, staged.headers)
    ensures var r := FirstDivergence(live, staged, TipOf(live), TipOf(staged));
            && r.Ok?
            && match r.value
               case None => live.canonical == staged.canonical
               case Some(first) =>
                 && DivergeAt(live.canonical, staged.canonical, first)
                 && (forall k: nat | k >= first && k in live.canonical && k in staged.canonical ::
                       live.canonical[k] != staged.canonical[k])
                 && (first > 0 ==> first - 1 in staged.canonical)
  {
    if live.best.Some? && staged.best.Some? {
      var (a, b) := (live.best.value, staged.best.value);
      if TipOf(live) == TipOf(staged) {
        AncestryStable(P, live.headers, staged.headers, a);
      } else {
        DivergenceScan(P, live, staged, genesis);
      }
    } else if live.best.Some? {
      assert 0 in live.canonical;
    } else if staged.best.Some? {
      assert 0 in staged.canonical;
    }
  }

  lemma DivergenceScan(P: Params, live: Store, staged: Store, genesis: BlockHeader)
    requires IndexedFrom(P, live, genesis) && IndexedFrom(P, staged, genesis) && Agree(live.headers, staged.headers)
    requires live.best.Some? && staged.best.Some? && TipOf(live) != TipOf(staged)
    ensures var height := Min(TipOf(live).value.height, TipOf(staged).value.height);
            var r := Scan(live.canonical, staged.canonical, height);
            && r.Ok? && 0 < r.value <= height + 1
            && DivergeAt(live.canonical, staged.canonical, r.value)
            && (forall k: nat | r.value <= k <= height :: live.canonical[k] != staged.canonical[k])
  {
    var (A, B) := (live.canonical, staged.canonical);
    var (a, b) := (live.best.value, staged.best.value);
    var height := Min(live.headers[a].height, staged.headers[b].height);
    SharedRoot(P, live.headers, staged.headers, a, b, genesis);
    forall i: nat, j: nat | j <= i <= height && A[i] == B[i] ensures A[j] == B[j] {
      SharedBelow(P, live.headers, staged.headers, a, b, i, j);
    }
    ScanFinds(A, B, height);
  }

  // ---- Both publishers install the staged index ----

  lemma SplicedIsStaged(live: map<nat, Hash>, staged: map<nat, Hash>, first: nat)
    requires forall k: nat | k < first :: SameAt(live, staged, k)
    ensures Spliced(live, staged, first) == staged
  {
    var r := Spliced(live, staged, first);
    forall k: nat ensures k in r <==> k in staged {
      assert SameAt(live, staged, k) || k >= first;
    }
    forall k <- staged ensures r[k] == staged[k] {
      assert SameAt(live, staged, k) || k >= first;
    }
  }

  lemma FullInstallsStaged(live: Db, staged: Db)
    requires Agree(live.store.headers, staged.store.headers) && SuffixIndexed(staged.store, 0)
    ensures PublishFull(live, staged) == Ok(Installed(live,
              Store(staged.store.headers + live.store.headers, staged.store.canonical, staged.store.best),
              staged.generation))
  {
    var (A, B) := (live.store.canonical, staged.store.canonical);
    var D := Differences(A, B);
    assert forall k: nat :: k !in D ==> SameAt(A, B, k);
    if D == {} {
      forall k: nat ensures k in A <==> k in B {
        assert SameAt(A, B, k);
      }
      forall k <- A ensures A[k] == B[k] {
        assert SameAt(A, B, k);
      }
      assert A == B;
    } else {
      SplicedIsStaged(A, B, Least(D));
    }
  }

  lemma {:induction false} SuffixSize(canonical: map<nat, Hash>, first: nat, top: nat)
    requires forall k: nat :: k in canonical <==> k <= top
    requires first <= top + 1
    ensures |HeightsFrom(canonical, first)| == top + 1 - first
    decreases top + 1 - first
  {
    if first == top + 1 {
      assert HeightsFrom(canonical, first) == {};
    } else {
      SuffixSize(canonical, first + 1, top);
      assert HeightsFrom(canonical, first) == {first} + HeightsFrom(canonical, first + 1);
    }
  }

  lemma RowsLinked(P: Params, s: Store, k: nat)
    requires Indexed(P, s) && k in s.canonical
    ensures s.canonical[k] in s.headers && s.headers[s.canonical[k]].height == k
    ensures LinkedRow(P, s, k) <==> (k == 0 ==> s.headers[s.canonical[k]].header.prevBlock == ZERO_HASH)
  {
    var (H, b) := (s.headers, s.best.value);
    assert ValidEntry(P, H, s.canonical[k]);
    if k > 0 {
      AncestorOfAncestor(P, H, b, k, k - 1);
    }
  }

  /** A suffix passes all checks, unless it starts at a genesis that names a parent. */
  lemma SuffixOfIndexed(P: Params, s: Store, genesis: BlockHeader, first: nat)
    requires IndexedFrom(P, s, genesis)
    requires first > 0 ==> first - 1 in s.canonical
    ensures SuffixIndexed(s, 0)
    ensures ValidSuffix(P, s, first, TipOf(s)) <==> first > 0 || s.best.None? || genesis.prevBlock == ZERO_HASH
  {
    forall k <- s.canonical
      ensures s.canonical[k] in s.headers && s.headers[s.canonical[k]].height == k
      ensures LinkedRow(P, s, k) <==> (k == 0 ==> genesis.prevBlock == ZERO_HASH)
    {
      RowsLinked(P, s, k);
    }
    if s.best.None? {
      assert HeightsFrom(s.canonical, first) == {};
    } else {
      SuffixSize(s.canonical, first, s.headers[s.best.value].height);
      assert 0 in s.canonical;
    }
  }

  // ---- Refinement ----

  /** What a stage made by snapshot, journaled insertion and nothing else has in common with the live database. */
  ghost predicate Stageable(P: Params, live: Db, staged: Db, genesis: BlockHeader) {
    && IndexedFrom(P, live.store, genesis) && IndexedFrom(P, staged.store, genesis)
    && Agree(live.store.headers, staged.store.headers)
    && staged.journal <= staged.store.headers.Keys <= staged.journal + live.store.headers.Keys
  }

  /**
   * The journal check demands proof of work and, at height zero, the zero parent of every journaled header, while
   * inserting a genesis demands neither.
   */
  predicate JournalBlocked(P: Params, staged: Db, genesis: BlockHeader) {
    && P.hash(genesis) in staged.journal
    && (genesis.prevBlock != ZERO_HASH || VerifyPow(P.hash(genesis), genesis.bits) != Ok(true))
  }

  /** The suffix check demands the zero parent when the suffix starts at the genesis: when nothing live was best yet. */
  predicate SuffixBlocked(live: Db, staged: Db, genesis: BlockHeader) {
    genesis.prevBlock != ZERO_HASH && live.store.best.None? && staged.store.best.Some?
  }

  /** Stages with such a genesis cannot be published conditionally. */
  predicate GenesisBlocked(P: Params, live: Db, staged: Db, genesis: BlockHeader) {
    JournalBlocked(P, staged, genesis) || SuffixBlocked(live, staged, genesis)
  }

  /** Over a live store without waiting headers only the journal check ever blocks. */
  lemma JournalCheckBlocksFirst(P: Params, live: Db, staged: Db, genesis: BlockHeader)
    requires Stageable(P, live, staged, genesis) && Valid(P, live.store)
    ensures GenesisBlocked(P, live, staged, genesis) <==> JournalBlocked(P, staged, genesis)
  {
    if SuffixBlocked(live, staged, genesis) {
      SingleRootStored(P, staged.store.headers, genesis);
    }
  }

  lemma JournalValidIff(P: Params, live: Db, staged: Db, genesis: BlockHeader)
    requires Stageable(P, live, staged, genesis)
    ensures ValidJournal(P, live.store, staged) <==> !JournalBlocked(P, staged, genesis)
  {
    var H := staged.store.headers;
    forall j <- staged.journal
      ensures ValidEntry(P, H, j)
      ensures H[j].height == 0 ==> H[j].header == genesis && j == P.hash(genesis)
    {
      assert j in H;
      assert ValidEntry(P, H, j);
    }
    if P.hash(genesis) in staged.journal {
      GenesisEntry(P, staged.store, genesis);
    }
  }

  lemma GenesisEntry(P: Params, s: Store, genesis: BlockHeader)
    requires IndexedFrom(P, s, genesis) && P.hash(genesis) in s.headers
    ensures var x := s.headers[P.hash(genesis)]; x.header == genesis && x.height == 0
  {
    var root := AncestorHash(P, s.headers, P.hash(genesis), 0);
    assert ValidEntry(P, s.headers, root);
  }

  lemma MergedIsUnion(P: Params, live: Db, staged: Db, genesis: BlockHeader)
    requires Stageable(P, live, staged, genesis)
    ensures WithJournal(live.store, staged).headers == staged.store.headers + live.store.headers
  {
  }

  lemma UnionValid(P: Params, H: HeaderTable, H': HeaderTable)
    requires ValidHeaders(P, H) && ValidHeaders(P, H') && Agree(H, H')
    ensures ValidHeaders(P, H' + H) && Extends(H, H' + H) && Extends(H', H' + H)
  {
    forall h <- H' + H ensures ValidEntry(P, H' + H, h) {
      if h in H {
        assert ValidEntry(P, H, h);
      } else {
        assert ValidEntry(P, H', h);
      }
    }
  }

  lemma UnionCovers(live: Store, staged: Db, first: nat)
    requires Agree(live.headers, staged.store.headers)
    ensures SuffixCovered(live.(headers := staged.store.headers + live.headers), staged, first)
  {
  }

  lemma FirstAboveRoot(P: Params, live: Store, staged: Store, genesis: BlockHeader, first: nat)
    requires IndexedFrom(P, live, genesis) && IndexedFrom(P, staged, genesis)
    requires live.best.Some? && staged.best.Some? && DivergeAt(live.canonical, staged.canonical, first)
    ensures first > 0
  {
    SharedRoot(P, live.headers, staged.headers, live.best.value, staged.best.value, genesis);
    assert SameAt(live.canonical, staged.canonical, 0);
  }

  /** Replacing a suffix that passes its checks. */
  lemma SpliceInstalls(P: Params, live: Store, merged: Store, staged: Db, genesis: BlockHeader, first: nat)
    requires IndexedFrom(P, staged.store, genesis) && (first > 0 ==> first - 1 in staged.store.canonical)
    requires DivergeAt(live.canonical, staged.store.canonical, first)
    requires Agree(live.headers, staged.store.headers)
    requires merged == live.(headers := staged.store.headers + live.headers)
    ensures ValidSuffix(P, staged.store, first, TipOf(staged.store))
       <==> first > 0 || staged.store.best.None? || genesis.prevBlock == ZERO_HASH
    ensures SuffixCovered(merged, staged, first)
    ensures Spliced(merged.canonical, staged.store.canonical, first) == staged.store.canonical
  {
    SuffixOfIndexed(P, staged.store, genesis, first);
    SplicedIsStaged(live.canonical, staged.store.canonical, first);
    UnionCovers(live, staged, first);
  }

  /** The divergence the delta publisher finds, over the merged headers. */
  lemma SuffixDivergence(P: Params, live: Store, merged: Store, staged: Db, genesis: BlockHeader)
    returns (r: Option<nat>)
    requires IndexedFrom(P, live, genesis) && IndexedFrom(P, staged.store, genesis)
    requires Agree(live.headers, staged.store.headers)
    requires merged == live.(headers := merged.headers) && Extends(live.headers, merged.headers)
    ensures ReadTip(merged) == Ok(TipOf(live)) && ReadTip(staged.store) == Ok(TipOf(staged.store))
    ensures FirstDivergence(merged, staged.store, TipOf(live), TipOf(staged.store)) == Ok(r)
    ensures match r
            case None => live.canonical == staged.store.canonical && TipOf(live) == TipOf(staged.store)
            case Some(first) =>
              && DivergeAt(live.canonical, staged.store.canonical, first)
              && (first > 0 ==> first - 1 in staged.store.canonical)
              && (live.best.None? || staged.store.best.None? ==> first == 0)
  {
    ReadTipOfIndexed(P, live);
    ReadTipOfIndexed(P, staged.store);
    assert ReadTip(merged) == ReadTip(live);
    DivergenceIsLeast(P, live, staged.store, genesis);
    r := FirstDivergence(live, staged.store, TipOf(live), TipOf(staged.store)).value;
  }

  lemma PublishSuffixEvaluates(P: Params, merged: Store, staged: Db, liveTip: Option<Tip>, stagedTip: Option<Tip>,
                               r: Option<nat>)
    requires ReadTip(merged) == Ok(liveTip) && ReadTip(staged.store) == Ok(stagedTip)
    requires FirstDivergence(merged, staged.store, liveTip, stagedTip) == Ok(r)
    ensures PublishSuffix(P, merged, staged)
         == match r
            case None => Ok(merged.(best := staged.store.best))
            case Some(first) =>
              if !ValidSuffix(P, staged.store, first, stagedTip) || !SuffixCovered(merged, staged, first)
              then Err(Storage)
              else
                Ok(Store(merged.headers, Spliced(merged.canonical, staged.store.canonical, first), staged.store.best))
  {
  }

  lemma SuffixInstallsStaged(P: Params, live: Store, merged: Store, staged: Db, genesis: BlockHeader)
    requires IndexedFrom(P, live, genesis) && IndexedFrom(P, staged.store, genesis)
    requires Agree(live.headers, staged.store.headers)
    requires merged == live.(headers := staged.store.headers + live.headers)
    ensures PublishSuffix(P, merged, staged)
         == if live.best.None? && staged.store.best.Some? && genesis.prevBlock != ZERO_HASH then Err(Storage)
            else Ok(Store(merged.headers, staged.store.canonical, staged.store.best))
  {
    var r := SuffixDivergence(P, live, merged, staged, genesis);
    if r.Some? {
      if live.best.Some? && staged.store.best.Some? {
        FirstAboveRoot(P, live, staged.store, genesis, r.value);
      } else {
        assert r.value == 0;
      }
      SpliceInstalls(P, live, merged, staged, genesis, r.value);
    }
    PublishSuffixEvaluates(P, merged, staged, TipOf(live), TipOf(staged.store), r);
  }

  /** The delta path commits exactly what the full path commits, and fails exactly on a blocked genesis. */
  lemma DeltaRefinesFull(P: Params, live: Db, staged: Db, genesis: BlockHeader)
    requires Stageable(P, live, staged, genesis)
    ensures PublishFull(live, staged) == Ok(Installed(live,
              Store(staged.store.headers + live.store.headers, staged.store.canonical, staged.store.best),
              staged.generation))
    ensures PublishDelta(P, live, staged)
         == if GenesisBlocked(P, live, staged, genesis) then Err(Storage) else PublishFull(live, staged)
  {
    JournalValidIff(P, live, staged, genesis);
    MergedIsUnion(P, live, staged, genesis);
    SuffixOfIndexed(P, staged.store, genesis, 0);
    FullInstallsStaged(live, staged);
    SuffixInstallsStaged(P, live.store, WithJournal(live.store, staged), staged, genesis);
  }
}
