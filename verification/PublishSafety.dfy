/**
 * What the publisher guarantees whatever the staged tables hold. The refinement says that good stages are published as
 * they should; here nothing is assumed of the stage, and a successful publication still leaves sound rows and an index
 * that is parent-linked from the best down to the root.
 */
module PublishSafety {
  import opened Wrappers
  import opened Pow
  import opened ChainModel
  import opened ChainInvariant
  import opened ChainConsensus
  import opened Snapshot
  import opened SnapshotRefinement
  import opened SqliteHeaderStore

  // ---- Rows ----

  /** The row is what its header hashes to, shows its work, and carries on from a staged parent or is a root. */
  ghost predicate SoundRow(P: Params, H: HeaderTable, j: Hash) {
    && j in H && P.hash(H[j].header) == j && WorkShown(P, H[j].header)
    && var x := H[j];
       if x.height == 0 then x.header.prevBlock == ZERO_HASH && WorkForBits(x.header.bits) == Ok(x.chainwork)
       else
         && x.header.prevBlock in H && H[x.header.prevBlock].height + 1 == x.height
         && x.chainwork >= H[x.header.prevBlock].chainwork
         && WorkForBits(x.header.bits) == Ok(x.chainwork - H[x.header.prevBlock].chainwork)
  }

  lemma JournalRowIff(P: Params, staged: Store, j: Hash)
    requires j in staged.headers
    ensures ValidJournalRow(P, staged, j) <==> SoundRow(P, staged.headers, j)
  {
    var x := staged.headers[j];
    PowMatchesTarget(j, x.header.bits);
    assert CompactToTarget(x.header.bits).Ok? <==> WorkForBits(x.header.bits).Ok?;
    if VerifyPow(j, x.header.bits) == Ok(true) && WorkForBits(x.header.bits).Ok? && P.hash(x.header) == j {
      PlaceIff(P, staged, j, WorkForBits(x.header.bits).value);
    }
  }

  /** A journaled row is refused if its hash misses its target. */
  lemma WorklessRefused(P: Params, staged: Store, j: Hash)
    requires j in staged.headers && CompactToTarget(staged.headers[j].header.bits).Ok?
    requires j > CompactToTarget(staged.headers[j].header.bits).value
    ensures !ValidJournalRow(P, staged, j)
  {
    PowMatchesTarget(j, staged.headers[j].header.bits);
  }

  /** A journal is refused if one of its rows differs from the live row of the same hash. */
  lemma ConflictRefused(P: Params, live: Store, staged: Db, j: Hash)
    requires j in staged.journal && j in live.headers && j in staged.store.headers
    requires live.headers[j] != staged.store.headers[j]
    ensures !ValidJournal(P, live, staged)
  {
  }

  /** A suffix that starts at a root which names a parent is refused. */
  lemma ParentedRootRefused(P: Params, staged: Store, tip: Option<Tip>)
    requires 0 in staged.canonical && staged.canonical[0] in staged.headers
    requires staged.headers[staged.canonical[0]].header.prevBlock > 0
    ensures !ValidSuffix(P, staged, 0, tip)
  {
    assert !LinkedRow(P, staged, 0);
  }

  /** For a row that hashes to its key and shows its work: what the check still asks of its place in the chain. */
  lemma PlaceIff(P: Params, staged: Store, j: Hash, work: nat)
    requires j in staged.headers && P.hash(staged.headers[j].header) == j
    requires VerifyPow(j, staged.headers[j].header.bits) == Ok(true)
    requires WorkForBits(staged.headers[j].header.bits) == Ok(work)
    ensures var (x, H) := (staged.headers[j], staged.headers);
            ValidJournalRow(P, staged, j) <==>
            if x.height == 0 then x.header.prevBlock == 0 && x.chainwork == work
            else
              && x.header.prevBlock in H && x.height - H[x.header.prevBlock].height == 1
              && x.chainwork - H[x.header.prevBlock].chainwork == work
  {
  }

  /** A journal starts exactly on the expected generation and best; it names them, is empty, and that is all. */
  lemma BeginIff(db: Db, g: U64, best: Option<Hash>)
    ensures BeginDelta(db, g, best) ==
            if db.generation == g && db.store.best == best
            then Ok(Db(db.store, g, Some(Baseline(g, best)), {}))
            else Err(Storage)
  {
  }

  /** The journal is accepted exactly when every journaled row is staged, sound, and not in conflict with a live row. */
  lemma JournalAcceptedIff(P: Params, live: Store, staged: Db)
    ensures ValidJournal(P, live, staged) <==>
            forall j <- staged.journal ::
              && SoundRow(P, staged.store.headers, j)
              && (j in live.headers ==> live.headers[j] == staged.store.headers[j])
  {
    forall j <- staged.journal | j in staged.store.headers
      ensures ValidJournalRow(P, staged.store, j) <==> SoundRow(P, staged.store.headers, j)
    {
      JournalRowIff(P, staged.store, j);
    }
  }

  /**
   * A successful conditional publication was made against the expected live state, with a baseline that names it and a
   * later generation; it adds exactly the journaled rows, all sound, and changes no live row.
   */
  lemma PublishedRowsSound(P: Params, live: Db, staged: Db, g: U64, best: Option<Hash>)
    requires PublishIfCurrent(P, live, staged, g, best).result == Ok(true)
    ensures var out := PublishIfCurrent(P, live, staged, g, best).live;
            && live.generation == g && live.store.best == best
            && staged.baseline == Some(Baseline(g, best)) && g < staged.generation == out.generation
            && out.store.best == staged.store.best
            && Extends(live.store.headers, out.store.headers)
            && (forall j <- staged.journal ::
                  && SoundRow(P, staged.store.headers, j)
                  && j in out.store.headers && out.store.headers[j] == staged.store.headers[j])
            && (forall h <- out.store.headers :: h in live.store.headers || h in staged.journal)
  {
    var store := PublicationIs(P, live, staged, g, best);
    JournalAcceptedIff(P, live.store, staged);
    MergedRows(live.store, staged);
  }

  /** What a successful conditional publication went through. */
  lemma PublicationIs(P: Params, live: Db, staged: Db, g: U64, best: Option<Hash>) returns (store: Store)
    requires PublishIfCurrent(P, live, staged, g, best).result == Ok(true)
    ensures live.generation == g && live.store.best == best && ValidBaseline(staged, g, best)
    ensures ValidJournal(P, live.store, staged)
    ensures PublishSuffix(P, WithJournal(live.store, staged), staged) == Ok(store)
    ensures PublishIfCurrent(P, live, staged, g, best).live == Installed(live, store, staged.generation)
    ensures store.headers == WithJournal(live.store, staged).headers && store.best == staged.store.best
  {
    store := PublishSuffix(P, WithJournal(live.store, staged), staged).value;
    SuffixKeepsHeaders(P, WithJournal(live.store, staged), staged);
  }

  lemma SuffixKeepsHeaders(P: Params, merged: Store, staged: Db)
    requires PublishSuffix(P, merged, staged).Ok?
    ensures var store := PublishSuffix(P, merged, staged).value;
            store.headers == merged.headers && store.best == staged.store.best
  {
  }

  lemma MergedRows(live: Store, staged: Db)
    requires JournalPresent(staged) && JournalConsistent(live, staged)
    ensures var H := WithJournal(live, staged).headers;
            && Extends(live.headers, H)
            && (forall j <- staged.journal :: j in H && H[j] == staged.store.headers[j])
            && forall h <- H :: h in live.headers || h in staged.journal
  {
  }

  // ---- The index ----

  /** Heights 0 to `top`, each holding a stored row of that height whose header hashes to it and names the row below. */
  ghost predicate LinkedIndex(P: Params, s: Store, top: nat) {
    && s.best.Some? && top in s.canonical && s.canonical[top] == s.best.value
    && forall k: nat {:trigger LinkedAt(P, s, top, k)} :: LinkedAt(P, s, top, k)
  }

  ghost predicate LinkedAt(P: Params, s: Store, top: nat, k: nat) {
    && (k in s.canonical <==> k <= top)
    && (k in s.canonical ==>
        && s.canonical[k] in s.headers && s.headers[s.canonical[k]].height == k
        && P.hash(s.headers[s.canonical[k]].header) == s.canonical[k]
        && (k > 0 ==> k - 1 in s.canonical && s.headers[s.canonical[k]].header.prevBlock == s.canonical[k - 1]))
  }

  /** The index of a store: none without a best, and linked from the best down otherwise. */
  ghost predicate ProperIndex(P: Params, s: Store) {
    if s.best.None? then s.canonical == map[]
    else s.best.value in s.headers && LinkedIndex(P, s, s.headers[s.best.value].height)
  }

  lemma IndexedIsProper(P: Params, s: Store)
    requires Indexed(P, s)
    ensures ProperIndex(P, s)
  {
    if s.best.Some? {
      var top := s.headers[s.best.value].height;
      forall k: nat ensures LinkedAt(P, s, top, k) {
        if k in s.canonical {
          RowsLinked(P, s, k);
          assert ValidEntry(P, s.headers, s.canonical[k]);
          if k > 0 {
            AncestorOfAncestor(P, s.headers, s.best.value, k, k - 1);
          }
        }
      }
    }
  }

  lemma {:induction false} ScanShares(a: map<nat, Hash>, b: map<nat, Hash>, height: nat)
    requires Scan(a, b, height).Ok?
    ensures var r := Scan(a, b, height).value;
            0 < r <= height + 1 && r - 1 in a && r - 1 in b && a[r - 1] == b[r - 1]
    decreases height
  {
    if a[height] != b[height] {
      ScanShares(a, b, height - 1);
    }
  }

  /** A row of the staged suffix that is covered stands in the merged headers as it is staged. */
  lemma CoveredRow(live: Store, merged: Store, staged: Db, first: nat, k: nat)
    requires JournalPresent(staged) && JournalConsistent(live, staged) && merged == WithJournal(live, staged)
    requires SuffixCovered(merged, staged, first) && k in staged.store.canonical && k >= first
    requires staged.store.canonical[k] in staged.store.headers
    ensures var hash := staged.store.canonical[k];
            hash in merged.headers && merged.headers[hash] == staged.store.headers[hash]
  {
  }

  /** The index below the suffix is the live one, and meets the suffix in a shared row. */
  ghost predicate MeetsLive(P: Params, live: Store, staged: Store, first: nat, liveTop: nat) {
    first > 0 ==>
      && LinkedIndex(P, live, liveTop) && first - 1 <= liveTop
      && first - 1 in staged.canonical && first - 1 in live.canonical
      && staged.canonical[first - 1] == live.canonical[first - 1]
  }

  lemma LowRow(P: Params, live: Store, out: Store, first: nat, liveTop: nat, top: nat, k: nat)
    requires LinkedIndex(P, live, liveTop) && k < first <= liveTop + 1 && first <= top + 1
    requires Extends(live.headers, out.headers)
    requires forall i: nat | i < first && i in live.canonical ::
               i in out.canonical && out.canonical[i] == live.canonical[i]
    ensures LinkedAt(P, out, top, k)
  {
    assert LinkedAt(P, live, liveTop, k);
    if k > 0 {
      assert LinkedAt(P, live, liveTop, k - 1);
    }
  }

  lemma HighRow(P: Params, live: Store, staged: Db, out: Store, first: nat, liveTop: nat, top: nat, k: nat)
    requires JournalPresent(staged) && JournalConsistent(live, staged)
    requires SuffixCovered(WithJournal(live, staged), staged, first)
    requires out.headers == WithJournal(live, staged).headers && MeetsLive(P, live, staged.store, first, liveTop)
    requires out.canonical == Spliced(live.canonical, staged.store.canonical, first)
    requires SuffixIndexed(staged.store, first) && SuffixLinked(P, staged.store, first)
    requires k >= first && (k in staged.store.canonical <==> k <= top)
    ensures LinkedAt(P, out, top, k)
  {
    if k in staged.store.canonical {
      assert LinkedRow(P, staged.store, k);
      CoveredRow(live, WithJournal(live, staged), staged, first, k);
      if k == first && k > 0 {
        assert LinkedAt(P, live, liveTop, k - 1);
      }
    }
  }

  lemma SplicedLinked(P: Params, live: Store, staged: Db, first: nat, liveTop: nat, tip: Tip, out: Store)
    requires JournalPresent(staged) && JournalConsistent(live, staged)
    requires ReadTip(staged.store) == Ok(Some(tip)) && ValidSuffix(P, staged.store, first, Some(tip))
    requires SuffixCovered(WithJournal(live, staged), staged, first) && first <= tip.height + 1
    requires MeetsLive(P, live, staged.store, first, liveTop)
    requires out.headers == WithJournal(live, staged).headers && out.best == staged.store.best
    requires out.canonical == Spliced(live.canonical, staged.store.canonical, first)
    ensures ProperIndex(P, out)
  {
    ContiguousRows(staged.store, first, Some(tip));
    MergedRows(live, staged);
    forall k: nat ensures LinkedAt(P, out, tip.height, k) {
      if k < first {
        LowRow(P, live, out, first, liveTop, tip.height, k);
      } else {
        HighRow(P, live, staged, out, first, liveTop, tip.height, k);
      }
    }
    TipIsBest(P, live, staged, first, liveTop, tip, out);
  }

  lemma TipIsBest(P: Params, live: Store, staged: Db, first: nat, liveTop: nat, tip: Tip, out: Store)
    requires ReadTip(staged.store) == Ok(Some(tip)) && first <= tip.height + 1
    requires MeetsLive(P, live, staged.store, first, liveTop) && out.best == staged.store.best
    requires out.canonical == Spliced(live.canonical, staged.store.canonical, first)
    requires forall k: nat {:trigger LinkedAt(P, out, tip.height, k)} :: LinkedAt(P, out, tip.height, k)
    ensures ProperIndex(P, out)
  {
    assert LinkedAt(P, out, tip.height, tip.height);
    assert out.canonical[tip.height] == tip.hash == out.best.value;
  }

  /** Whatever the stage holds, a successful publication leaves a proper index where there was one. */
  lemma PublishedIndexProper(P: Params, live: Db, staged: Db, g: U64, best: Option<Hash>)
    requires ProperIndex(P, live.store) && PublishIfCurrent(P, live, staged, g, best).result == Ok(true)
    ensures ProperIndex(P, PublishIfCurrent(P, live, staged, g, best).live.store)
  {
    var store := PublicationIs(P, live, staged, g, best);
    MergedRows(live.store, staged);
    SuffixLeavesProper(P, live.store, staged, store);
  }

  lemma SuffixLeavesProper(P: Params, live: Store, staged: Db, out: Store)
    requires ProperIndex(P, live) && JournalPresent(staged) && JournalConsistent(live, staged)
    requires PublishSuffix(P, WithJournal(live, staged), staged) == Ok(out)
    ensures ProperIndex(P, out)
  {
    var merged := WithJournal(live, staged);
    MergedRows(live, staged);
    var (liveTip, tip) := (ReadTip(merged).value, ReadTip(staged.store).value);
    var r := FirstDivergence(merged, staged.store, liveTip, tip).value;
    PublishSuffixEvaluates(P, merged, staged, liveTip, tip, r);
    match r
    case None => SameTipProper(P, live, merged, staged, out, tip);
    case Some(first) =>
      if tip.None? {
        NothingStaged(live, staged, first, out);
      } else {
        var liveTop := MeetsWhereFound(P, live, merged, staged.store, liveTip, tip.value, first);
        SplicedLinked(P, live, staged, first, liveTop, tip.value, out);
      }
  }

  lemma SameTipProper(P: Params, live: Store, merged: Store, staged: Db, out: Store, tip: Option<Tip>)
    requires ProperIndex(P, live) && merged == live.(headers := merged.headers) && Extends(live.headers, merged.headers)
    requires ReadTip(merged) == Ok(tip) == ReadTip(staged.store) && out == merged.(best := staged.store.best)
    ensures ProperIndex(P, out)
  {
    assert out == merged;
    if live.best.Some? {
      var top := live.headers[live.best.value].height;
      forall k: nat ensures LinkedAt(P, out, top, k) {
        assert LinkedAt(P, live, top, k);
      }
    }
  }

  lemma NothingStaged(live: Store, staged: Db, first: nat, out: Store)
    requires ReadTip(staged.store) == Ok(None) && first == 0
    requires out.canonical == Spliced(live.canonical, staged.store.canonical, first) && out.best == staged.store.best
    ensures out.best.None? && out.canonical == map[]
  {
  }

  lemma MeetsWhereFound(P: Params, live: Store, merged: Store, staged: Store, liveTip: Option<Tip>, tip: Tip,
                        first: nat)
    returns (liveTop: nat)
    requires ProperIndex(P, live) && merged == live.(headers := merged.headers) && Extends(live.headers, merged.headers)
    requires ReadTip(merged) == Ok(liveTip) && ReadTip(staged) == Ok(Some(tip))
    requires FirstDivergence(merged, staged, liveTip, Some(tip)) == Ok(Some(first))
    ensures MeetsLive(P, live, staged, first, liveTop) && first <= tip.height + 1
  {
    if liveTip.None? {
      liveTop := 0;
    } else {
      liveTop := live.headers[live.best.value].height;
      ScanShares(merged.canonical, staged.canonical, Min(liveTip.value.height, tip.height));
    }
  }

  /** The full publisher refuses exactly conflicting rows and index entries without a stored row of that height. */
  lemma FullRefusesIff(live: Db, staged: Db)
    ensures PublishFull(live, staged).Err? <==>
            || (exists h <- live.store.headers | h in staged.store.headers ::
                  live.store.headers[h] != staged.store.headers[h])
            || (exists k <- staged.store.canonical ::
                  || staged.store.canonical[k] !in staged.store.headers
                  || staged.store.headers[staged.store.canonical[k]].height != k)
  {
  }
}
