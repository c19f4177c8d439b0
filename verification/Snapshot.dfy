/**
 * Snapshot publication over the SQLite tables: the private copy, its header journal, the conditional delta
 * publisher and the unconditional full publisher. Tables are finite maps and a transaction is one function
 * application: it yields the committed database, or an error that leaves the live one as it was.
 */
module Snapshot {
  import opened Wrappers
  import opened Pow
  import opened ChainModel

  datatype Baseline = Baseline(generation: U64, best: Option<Hash>)

  /** The tables of one database file. A missing generation row reads as zero. */
  datatype Db = Db(store: Store, generation: U64, baseline: Option<Baseline>, journal: set<Hash>)

  const EMPTY_DB := Db(EMPTY_STORE, 0, None, {})

  datatype Tip = Tip(height: nat, hash: Hash)

  function SetGeneration(db: Db, generation: U64): Db {
    db.(generation := generation)
  }

  function BeginDelta(db: Db, generation: U64, best: Option<Hash>): Result<Db, ChainError> {
    if db.generation != generation || db.store.best != best then Err(Storage)
    else Ok(db.(baseline := Some(Baseline(generation, best)), journal := {}))
  }

  /** The insert trigger journals every new header row once a baseline exists. */
  function Journaled(db: Db, store: Store): Db {
    var added := if db.baseline.Some? then store.headers.Keys - db.store.headers.Keys else {};
    db.(store := store, journal := db.journal + added)
  }

  function Insert(P: Params, db: Db, op: Op): Db {
    Journaled(db, Apply(P, db.store, op))
  }

  // ---- Validation of the staged tables ----

  predicate ValidBaseline(staged: Db, generation: U64, best: Option<Hash>) {
    staged.baseline == Some(Baseline(generation, best)) && staged.generation > generation
  }

  predicate ValidJournalRow(P: Params, staged: Store, j: Hash)
    requires j in staged.headers
  {
    var x := staged.headers[j];
    && P.hash(x.header) == j
    && VerifyPow(j, x.header.bits) == Ok(true)
    && WorkForBits(x.header.bits).Ok?
    && var work := WorkForBits(x.header.bits).value;
       if x.height == 0 then x.header.prevBlock == ZERO_HASH && x.chainwork == work
       else
         && x.header.prevBlock in staged.headers
         && staged.headers[x.header.prevBlock].height + 1 == x.height
         && x.chainwork == staged.headers[x.header.prevBlock].chainwork + work
  }

  predicate JournalPresent(staged: Db) {
    forall j <- staged.journal :: j in staged.store.headers
  }

  predicate JournalConsistent(live: Store, staged: Db)
    requires JournalPresent(staged)
  {
    forall j <- staged.journal | j in live.headers :: live.headers[j] == staged.store.headers[j]
  }

  predicate ValidJournal(P: Params, live: Store, staged: Db) {
    && JournalPresent(staged)
    && JournalConsistent(live, staged)
    && forall j <- staged.journal :: ValidJournalRow(P, staged.store, j)
  }

  function ReadTip(s: Store): Result<Option<Tip>, ChainError> {
    match s.best
    case None => if s.canonical == map[] then Ok(None) else Err(Storage)
    case Some(b) =>
      if b !in s.headers then Err(Storage)
      else
        var height := s.headers[b].height;
        if height !in s.canonical || s.canonical[height] != b || exists k <- s.canonical :: k > height
        then Err(Storage)
        else Ok(Some(Tip(height, b)))
  }

  /** The downward scan for the highest shared height. */
  function Scan(live: map<nat, Hash>, staged: map<nat, Hash>, height: nat): Result<nat, ChainError> {
    if height !in live || height !in staged then Err(Storage)
    else if live[height] == staged[height] then
      if height >= U32_MAX then Err(InvalidDifficultyWindow) else Ok(height + 1)
    else if height == 0 then Err(Storage)
    else Scan(live, staged, height - 1)
  }

  function Min(a: nat, b: nat): nat {
    if a < b then a else b
  }

  function FirstDivergence(live: Store, staged: Store, liveTip: Option<Tip>, stagedTip: Option<Tip>)
    : Result<Option<nat>, ChainError>
  {
    if liveTip == stagedTip then Ok(None)
    else if liveTip.None? || stagedTip.None? then Ok(Some(0))
    else
      var height :- Scan(live.canonical, staged.canonical, Min(liveTip.value.height, stagedTip.value.height));
      Ok(Some(height))
  }

  function HeightsFrom(canonical: map<nat, Hash>, first: nat): set<nat> {
    set k <- canonical.Keys | k >= first
  }

  predicate SuffixContiguous(staged: Store, first: nat, tip: Option<Tip>) {
    |HeightsFrom(staged.canonical, first)|
    == (if tip.Some? && tip.value.height >= first then tip.value.height - first + 1 else 0)
  }

  predicate SuffixIndexed(staged: Store, first: nat) {
    forall k <- staged.canonical | k >= first ::
      staged.canonical[k] in staged.headers && staged.headers[staged.canonical[k]].height == k
  }

  /** A canonical row hashes correctly and names the previous canonical hash as its parent. */
  predicate LinkedRow(P: Params, staged: Store, k: nat)
    requires k in staged.canonical
  {
    var hash := staged.canonical[k];
    && hash in staged.headers
    && P.hash(staged.headers[hash].header) == hash
    && if k == 0 then staged.headers[hash].header.prevBlock == ZERO_HASH
       else k - 1 in staged.canonical && staged.headers[hash].header.prevBlock == staged.canonical[k - 1]
  }

  predicate SuffixLinked(P: Params, staged: Store, first: nat) {
    && (first > 0 ==> first - 1 in staged.canonical)
    && forall k {:trigger LinkedRow(P, staged, k)} | k in staged.canonical && k >= first :: LinkedRow(P, staged, k)
  }

  predicate ValidSuffix(P: Params, staged: Store, first: nat, tip: Option<Tip>) {
    SuffixContiguous(staged, first, tip) && SuffixIndexed(staged, first) && SuffixLinked(P, staged, first)
  }

  predicate SuffixCovered(live: Store, staged: Db, first: nat) {
    forall k <- staged.store.canonical | k >= first && staged.store.canonical[k] in staged.store.headers ::
      var hash := staged.store.canonical[k];
      hash in live.headers && (hash in staged.journal || live.headers[hash] == staged.store.headers[hash])
  }

  // ---- Publication ----

  function Spliced(live: map<nat, Hash>, staged: map<nat, Hash>, first: nat): map<nat, Hash> {
    (map k | k in live && k < first :: live[k]) + (map k | k in staged && k >= first :: staged[k])
  }

  /** Insert-or-ignore of the journaled headers into the live table. */
  function WithJournal(live: Store, staged: Db): Store
    requires JournalPresent(staged)
  {
    live.(headers := (map j | j in staged.journal :: staged.store.headers[j]) + live.headers)
  }

  function Installed(live: Db, store: Store, generation: U64): Db {
    Journaled(live, store).(generation := generation)
  }

  /** Replaces the live canonical suffix and chain state once the journaled headers are in. */
  function PublishSuffix(P: Params, merged: Store, staged: Db): Result<Store, ChainError> {
    var liveTip :- ReadTip(merged);
    var stagedTip :- ReadTip(staged.store);
    var divergence :- FirstDivergence(merged, staged.store, liveTip, stagedTip);
    match divergence
    case None => Ok(merged.(best := staged.store.best))
    case Some(first) =>
      if !ValidSuffix(P, staged.store, first, stagedTip) || !SuffixCovered(merged, staged, first) then Err(Storage)
      else
        var canonical := Spliced(merged.canonical, staged.store.canonical, first);
        Ok(Store(merged.headers, canonical, staged.store.best))
  }

  function PublishDelta(P: Params, live: Db, staged: Db): Result<Db, ChainError> {
    if !ValidJournal(P, live.store, staged) then Err(Storage)
    else
      var store :- PublishSuffix(P, WithJournal(live.store, staged), staged);
      Ok(Installed(live, store, staged.generation))
  }

  function Differences(live: map<nat, Hash>, staged: map<nat, Hash>): set<nat> {
    (set k <- live.Keys | k !in staged || staged[k] != live[k])
    + (set k <- staged.Keys | k !in live || live[k] != staged[k])
  }

  ghost function Least(heights: set<nat>): (k: nat)
    requires heights != {}
    ensures k in heights && forall i <- heights :: k <= i
  {
    var x :| x in heights;
    if heights == {x} then x
    else
      var y := Least(heights - {x});
      assert heights == (heights - {x}) + {x};
      if x < y then x else y
  }

  ghost function PublishFull(live: Db, staged: Db): Result<Db, ChainError> {
    if exists h <- live.store.headers | h in staged.store.headers ::
         live.store.headers[h] != staged.store.headers[h] then Err(Storage)
    else if !SuffixIndexed(staged.store, 0) then Err(Storage)
    else
      var headers := staged.store.headers + live.store.headers;
      var differences := Differences(live.store.canonical, staged.store.canonical);
      var canonical :=
        if differences == {} then live.store.canonical
        else Spliced(live.store.canonical, staged.store.canonical, Least(differences));
      Ok(Installed(live, Store(headers, canonical, staged.store.best), staged.generation))
  }

  /** What a publication call leaves behind and returns; `false` reports a live state that moved on. */
  datatype Published = Published(live: Db, result: Result<bool, ChainError>)

  function PublishIfCurrent(P: Params, live: Db, staged: Db, generation: U64, best: Option<Hash>): Published {
    if live.generation != generation || live.store.best != best then Published(live, Ok(false))
    else if !ValidBaseline(staged, generation, best) then Published(live, Err(Storage))
    else
      match PublishDelta(P, live, staged)
      case Err(e) => Published(live, Err(e))
      case Ok(db) => Published(db, Ok(true))
  }
}
