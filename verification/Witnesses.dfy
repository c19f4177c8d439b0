/** Concrete inputs on which the conditions attached to the chain and publication theorems make the difference. */
module Witnesses {
  import opened Wrappers
  import opened Pow
  import opened ChainModel
  import opened ChainInvariant
  import opened ChainBatch
  import opened Snapshot
  import opened SnapshotRefinement

  /** A permissive chain whose header hash is the nonce. */
  const NONCE_HASHED := Params(Permissive, (h: BlockHeader) => h.nonce as Hash, map[])

  function Root(nonce: U32, bits: U32): BlockHeader {
    BlockHeader(nonce, 0, ZERO_HASH, ZERO_HASH, 0, ZERO_HASH, ZERO_HASH, ZERO_HASH, 0, bits, ZERO_HASH)
  }

  function Child(nonce: U32, parent: Hash, bits: U32): BlockHeader {
    Root(nonce, bits).(prevBlock := parent)
  }

  function Work(target: nat): nat {
    Quotient(TWO_256, target + 1)
  }

  /** With exponent three the target is the mantissa. */
  lemma PlainTarget(target: nat, hash: nat)
    requires 0 < target < 0x80_0000
    ensures CompactToTarget(0x300_0000 + target) == Ok(target)
    ensures WorkForBits(0x300_0000 + target) == Ok(Work(target))
    ensures VerifyPow(hash, 0x300_0000 + target) == Ok(hash <= target)
  {
    assert Pow256(0) == 1;
    assert Quotient(target, 1) == target;
  }

  function RootRow(nonce: U32, parent: Hash, target: nat): StoredHeader
    requires target < 0x80_0000
  {
    StoredHeader(nonce, Child(nonce, parent, 0x300_0000 + target), 0, Work(target))
  }

  function RootStore(x: StoredHeader): Store {
    Store(map[x.hash := x], map[0 := x.hash], Some(x.hash))
  }

  /** The store after one genesis on an empty chain. */
  lemma FirstRoot(nonce: U32, parent: Hash, target: nat, x: StoredHeader)
    requires 0 < target < 0x80_0000 && x == RootRow(nonce, parent, target)
    ensures Apply(NONCE_HASHED, EMPTY_STORE, Genesis(x.header)) == RootStore(x)
    ensures Valid(NONCE_HASHED, RootStore(x)) && BestWork(RootStore(x)) == Work(target)
    ensures SingleRoot(RootStore(x).headers, x.header)
  {
    PlainTarget(target, nonce);
    InsertGenesisRebuilds(NONCE_HASHED, EMPTY_STORE, x.header);
    RootIsAncestry(x);
  }

  lemma RootIsAncestry(x: StoredHeader)
    requires x.height == 0 && ValidHeaders(NONCE_HASHED, map[x.hash := x])
    ensures Rebuilt(NONCE_HASHED, map[x.hash := x], x.hash) == RootStore(x)
  {
    assert Ancestry(NONCE_HASHED, map[x.hash := x], x.hash) == map[0 := x.hash];
  }

  // ---- Stages that only the full publisher accepts ----

  function GenesisStage(root: BlockHeader): Db {
    SetGeneration(Insert(NONCE_HASHED, BeginDelta(EMPTY_DB, 0, None).value, Genesis(root)), 1)
  }

  lemma StageOfGenesis(nonce: U32, parent: Hash, target: nat, x: StoredHeader)
    requires 0 < target < 0x80_0000 && x == RootRow(nonce, parent, target)
    ensures var staged := GenesisStage(x.header);
            && Stageable(NONCE_HASHED, EMPTY_DB, staged, x.header)
            && staged.journal == {x.hash} && ValidBaseline(staged, 0, None)
  {
    FirstRoot(nonce, parent, target, x);
    assert GenesisStage(x.header).store == RootStore(x);
  }

  /** A genesis that misses its target or names a parent: the full path publishes it, the conditional path refuses. */
  lemma RefusedGenesis(nonce: U32, parent: Hash, target: nat)
    requires 0 < target < 0x80_0000 && (nonce > target || parent != ZERO_HASH)
    ensures var staged := GenesisStage(Child(nonce, parent, 0x300_0000 + target));
            && PublishFull(EMPTY_DB, staged).Ok?
            && PublishIfCurrent(NONCE_HASHED, EMPTY_DB, staged, 0, None) == Published(EMPTY_DB, Err(Storage))
  {
    var x := RootRow(nonce, parent, target);
    PlainTarget(target, nonce);
    StageOfGenesis(nonce, parent, target, x);
    DeltaRefinesFull(NONCE_HASHED, EMPTY_DB, GenesisStage(x.header), x.header);
  }

  /** A genesis without proof of work. */
  lemma BlockedGenesis()
    ensures var staged := GenesisStage(Child(2, ZERO_HASH, 0x300_0000 + 1));
            && PublishFull(EMPTY_DB, staged).Ok?
            && PublishIfCurrent(NONCE_HASHED, EMPTY_DB, staged, 0, None) == Published(EMPTY_DB, Err(Storage))
  {
    RefusedGenesis(2, ZERO_HASH, 1);
  }

  /** A genesis with proof of work that names a parent. */
  lemma ParentedGenesis()
    ensures VerifyPow(1, 0x300_0000 + 1) == Ok(true)
    ensures var staged := GenesisStage(Child(1, 7, 0x300_0000 + 1));
            && PublishFull(EMPTY_DB, staged).Ok?
            && PublishIfCurrent(NONCE_HASHED, EMPTY_DB, staged, 0, None) == Published(EMPTY_DB, Err(Storage))
  {
    PlainTarget(1, 1);
    RefusedGenesis(1, 7, 1);
  }

  // ---- The genesis of the main network ----

  const MAINNET_GENESIS_HASH: Hash := 0x5b6ef2d3c1f3cdcadfd9a030ba1811efdd17740f14e166489760741d075992e0

  lemma MainnetGenesisMissesTarget()
    ensures VerifyPow(MAINNET_GENESIS_HASH, MAINNET_GENESIS.bits) == Ok(false)
  {
    assert Pow256(4) == 0x1_0000_0000;
    assert Pow256(8) == 0x1_0000_0000_0000_0000;
    assert Pow256(12) == 0x1_0000_0000_0000_0000_0000_0000;
    assert Pow256(16) == 0x1_0000_0000_0000_0000_0000_0000_0000_0000;
    assert Pow256(20) == 0x1_0000_0000_0000_0000_0000_0000_0000_0000_0000_0000;
    assert Pow256(24) == 0x1_0000_0000_0000_0000_0000_0000_0000_0000_0000_0000_0000_0000;
    assert Pow256(25) == 0x100_0000_0000_0000_0000_0000_0000_0000_0000_0000_0000_0000_0000;
  }

  /**
   * With the header hash of the main network no stage that had to insert the genesis can be published conditionally,
   * while the full path publishes every one of them.
   */
  lemma MainnetGenesisBlocked(P: Params, live: Db, staged: Db, g: U64, best: Option<Hash>)
    requires P.hash(MAINNET_GENESIS) == MAINNET_GENESIS_HASH && MAINNET_GENESIS_HASH in staged.journal
    requires Stageable(P, live, staged, MAINNET_GENESIS)
    ensures PublishFull(live, staged).Ok? && PublishDelta(P, live, staged) == Err(Storage)
    ensures PublishIfCurrent(P, live, staged, g, best).result != Ok(true)
  {
    MainnetGenesisMissesTarget();
    DeltaRefinesFull(P, live, staged, MAINNET_GENESIS);
  }

  // ---- A second root ----

  /** A second, lighter root under the permissive policy: it becomes best, and best chainwork falls. */
  lemma LighterSecondRoot(s: Store)
    requires s == Run(NONCE_HASHED, EMPTY_STORE, [Genesis(Root(1, 0x300_0001)), Genesis(Root(2, 0x300_0003))])
    ensures s.best == Some(2) && 1 in s.headers && s.headers[1].chainwork > BestWork(s)
    ensures !Valid(NONCE_HASHED, s)
  {
    var (heavy, light, x) := (Genesis(Root(1, 0x300_0001)), Genesis(Root(2, 0x300_0003)), RootRow(1, ZERO_HASH, 1));
    FirstRoot(1, ZERO_HASH, 1, x);
    assert [heavy, light][..1] == [heavy] && [heavy][..0] == [];
    assert Run(NONCE_HASHED, EMPTY_STORE, [heavy]) == Apply(NONCE_HASHED, EMPTY_STORE, heavy) == RootStore(x);
    SecondRoot(RootStore(x));
  }

  lemma SecondRoot(first: Store)
    requires Valid(NONCE_HASHED, first) && first.headers.Keys == {1} && first.best == Some(1)
    requires BestWork(first) == Quotient(TWO_256, 2)
    ensures var s := Apply(NONCE_HASHED, first, Genesis(Root(2, 0x300_0003)));
            && s.best == Some(2) && 1 in s.headers && s.headers[1].chainwork > BestWork(s)
            && !Valid(NONCE_HASHED, s)
  {
    PlainTarget(3, 2);
    InsertGenesisRebuilds(NONCE_HASHED, first, Root(2, 0x300_0003));
    InsertGenesisValidIff(NONCE_HASHED, first, Root(2, 0x300_0003));
  }

  // ---- Rows ----

  // A root, two equally heavy children, a child of the first, and a light fork of two headers.
  const ROOT_ROW := RootRow(1, ZERO_HASH, 9)
  const HEAVY_ROW := StoredHeader(2, Child(2, 1, 0x300_0009), 1, Work(9) + Work(9))
  const TWIN_ROW := StoredHeader(6, Child(6, 1, 0x300_0009), 1, Work(9) + Work(9))
  const TOP_ROW := StoredHeader(5, Child(5, 2, 0x300_0009), 2, Work(9) + Work(9) + Work(9))
  const FORK_ROW := StoredHeader(3, Child(3, 1, 0x300_0063), 1, Work(9) + Work(99))
  const FORK_TIP_ROW := StoredHeader(4, Child(4, 3, 0x300_0063), 2, Work(9) + Work(99) + Work(99))

  lemma RowWorks()
    ensures 0 < Work(99) && FORK_TIP_ROW.chainwork <= HEAVY_ROW.chainwork
    ensures ROOT_ROW.chainwork < FORK_ROW.chainwork <= HEAVY_ROW.chainwork < TOP_ROW.chainwork
  {
  }

  /** `x` is the child of `parent` with this nonce and target. */
  predicate IsChild(x: StoredHeader, nonce: U32, parent: StoredHeader, target: nat) {
    && nonce <= target && 0 < target < 0x80_0000 && parent.height < 9
    && var header := Child(nonce, parent.hash, 0x300_0000 + target);
       x == StoredHeader(nonce, header, parent.height + 1, parent.chainwork + Work(target))
  }

  lemma AdmitsChild(H: HeaderTable, nonce: U32, parent: StoredHeader, target: nat, x: StoredHeader)
    requires parent.hash in H && H[parent.hash] == parent && IsChild(x, nonce, parent, target)
    ensures Admit(NONCE_HASHED, H, x.header) == Ok(x) == AdmitBatched(NONCE_HASHED, H, x.header)
  {
    PlainTarget(target, nonce);
  }

  /** Inserting a child that is no heavier than the best only adds its row. */
  lemma AddsLightChild(db: Db, nonce: U32, parent: StoredHeader, target: nat, x: StoredHeader)
    requires parent.hash in db.store.headers && db.store.headers[parent.hash] == parent
    requires IsChild(x, nonce, parent, target) && x.hash !in db.store.headers
    requires db.store.best.Some? && db.store.best.value in db.store.headers
    requires x.chainwork <= db.store.headers[db.store.best.value].chainwork
    ensures Insert(NONCE_HASHED, db, Single(x.header))
         == Journaled(db, db.store.(headers := db.store.headers[x.hash := x]))
  {
    AdmitsChild(db.store.headers, nonce, parent, target, x);
  }

  /** Inserting a heavier child of the best makes it best. */
  lemma AddsTip(db: Db, nonce: U32, parent: StoredHeader, target: nat, x: StoredHeader)
    requires parent.hash in db.store.headers && db.store.headers[parent.hash] == parent
    requires IsChild(x, nonce, parent, target) && x.hash !in db.store.headers
    requires db.store.best == Some(parent.hash) && x.chainwork > parent.chainwork
    ensures Insert(NONCE_HASHED, db, Single(x.header))
         == Journaled(db, Store(db.store.headers[x.hash := x], db.store.canonical[x.height := x.hash], Some(x.hash)))
  {
    AdmitsChild(db.store.headers, nonce, parent, target, x);
  }

  const ROOTED := RootStore(ROOT_ROW)

  lemma RootedIsReached()
    ensures ROOTED == Apply(NONCE_HASHED, EMPTY_STORE, Genesis(ROOT_ROW.header)) && Valid(NONCE_HASHED, ROOTED)
    ensures SingleRoot(ROOTED.headers, ROOT_ROW.header)
  {
    FirstRoot(1, ZERO_HASH, 9, ROOT_ROW);
  }

  // ---- Tied tips ----

  lemma AcceptsFirst(H: HeaderTable, header: BlockHeader, x: StoredHeader, rest: seq<BlockHeader>,
                     xs: seq<StoredHeader>)
    requires AdmitBatched(NONCE_HASHED, H, header) == Ok(x) && NONCE_HASHED.hash(header) == x.hash && x.hash !in H
    requires AcceptAll(NONCE_HASHED, H[x.hash := x], rest) == Ok(xs)
    ensures AcceptAll(NONCE_HASHED, H, [header] + rest) == Ok([x] + xs)
  {
    assert ([header] + rest)[1..] == rest;
  }

  /** A batch of two equally heavy tips leaves the last best, single insertions leave the first. */
  lemma TiedTips(headers: seq<BlockHeader>)
    requires headers == [HEAVY_ROW.header] + [TWIN_ROW.header]
    ensures InsertHeaders(NONCE_HASHED, ROOTED, headers).store.best == Some(6)
    ensures InsertEach(NONCE_HASHED, ROOTED, headers).store.best == Some(2)
  {
    RootedIsReached();
    var H := ROOTED.headers;
    AdmitsChild(H, 2, ROOT_ROW, 9, HEAVY_ROW);
    AdmitsChild(H[2 := HEAVY_ROW], 6, ROOT_ROW, 9, TWIN_ROW);
    AcceptsFirst(H[2 := HEAVY_ROW], TWIN_ROW.header, TWIN_ROW, [], []);
    assert [TWIN_ROW.header] + [] == [TWIN_ROW.header] && [TWIN_ROW] + [] == [TWIN_ROW];
    AcceptsFirst(H, HEAVY_ROW.header, HEAVY_ROW, [TWIN_ROW.header], [TWIN_ROW]);
    var xs := [HEAVY_ROW] + [TWIN_ROW];
    EachTracksBatch(NONCE_HASHED, ROOTED, headers);
    EachLeavesFirst(NONCE_HASHED, ROOTED, headers);
    InsertHeadersRebuilds(NONCE_HASHED, ROOTED, headers);
    assert FirstMax(xs) == 0 && LastMax(xs) == 1;
  }

  // ---- A late journal ----

  const LIVE := Db(Store(map[1 := ROOT_ROW, 2 := HEAVY_ROW], map[0 := 1, 1 := 2], Some(2)), 0, None, {})

  /** The snapshot took the fork before its journal started and the fork's tip after. */
  const LATE := Db(
    Store(map[1 := ROOT_ROW, 2 := HEAVY_ROW, 3 := FORK_ROW, 4 := FORK_TIP_ROW], map[0 := 1, 1 := 2], Some(2)),
    1, Some(Baseline(0, Some(2))), {4})

  lemma LiveIsReached()
    ensures var rooted := Insert(NONCE_HASHED, EMPTY_DB, Genesis(ROOT_ROW.header));
            Insert(NONCE_HASHED, rooted, Single(HEAVY_ROW.header)) == LIVE
  {
    RootedIsReached();
    RowWorks();
    AddsTip(Db(ROOTED, 0, None, {}), 2, ROOT_ROW, 9, HEAVY_ROW);
  }

  lemma LateIsReached()
    ensures var begun := BeginDelta(Insert(NONCE_HASHED, LIVE, Single(FORK_ROW.header)), 0, Some(2));
            begun.Ok? && SetGeneration(Insert(NONCE_HASHED, begun.value, Single(FORK_TIP_ROW.header)), 1) == LATE
  {
    RowWorks();
    AddsLightChild(LIVE, 3, ROOT_ROW, 99, FORK_ROW);
    var begun := BeginDelta(Insert(NONCE_HASHED, LIVE, Single(FORK_ROW.header)), 0, Some(2));
    AddsLightChild(begun.value, 4, FORK_ROW, 99, FORK_TIP_ROW);
  }

  /** A journal started late publishes a header without its parent. */
  lemma LateJournal()
    ensures var out := PublishIfCurrent(NONCE_HASHED, LIVE, LATE, 0, Some(2));
            out.result == Ok(true) && 4 in out.live.store.headers && 3 !in out.live.store.headers
  {
    LateJournalValid();
    var merged := WithJournal(LIVE.store, LATE);
    assert 4 in merged.headers && 3 !in merged.headers;
    LateSuffix(merged);
    PublishesMerged(LIVE, LATE, merged, 0, Some(2));
  }

  /** What makes a publication succeed with the merged headers as they are. */
  lemma PublishesMerged(live: Db, staged: Db, merged: Store, g: U64, best: Option<Hash>)
    requires live.generation == g && live.store.best == best && ValidBaseline(staged, g, best)
    requires ValidJournal(NONCE_HASHED, live.store, staged) && merged == WithJournal(live.store, staged)
    requires PublishSuffix(NONCE_HASHED, merged, staged) == Ok(merged)
    ensures PublishIfCurrent(NONCE_HASHED, live, staged, g, best).result == Ok(true)
    ensures PublishIfCurrent(NONCE_HASHED, live, staged, g, best).live.store.headers == merged.headers
  {
  }

  lemma LateSuffix(merged: Store)
    requires merged.canonical == LATE.store.canonical && merged.best == LATE.store.best
    requires 2 in merged.headers && merged.headers[2] == HEAVY_ROW
    ensures PublishSuffix(NONCE_HASHED, merged, LATE) == Ok(merged)
  {
    TipOfHeavy(merged);
    TipOfHeavy(LATE.store);
  }

  lemma LateJournalValid()
    ensures ValidJournal(NONCE_HASHED, LIVE.store, LATE)
  {
    PlainTarget(99, 4);
    assert ValidJournalRow(NONCE_HASHED, LATE.store, 4);
  }

  lemma TipOfHeavy(s: Store)
    requires s.canonical == map[0 := 1, 1 := 2] && s.best == Some(2) && 2 in s.headers && s.headers[2] == HEAVY_ROW
    ensures ReadTip(s) == Ok(Some(Tip(1, 2)))
  {
  }
}
