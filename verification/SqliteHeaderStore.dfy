/**
 * The database-backed store with its publication transactions, updated in place.
 *
 * SQL statements over whole tables are expressions on the table maps; the row loops and the downward scan are
 * loops. A transaction works on local copies and assigns the fields only when it commits.
 */
module SqliteHeaderStore {
  import opened Wrappers
  import opened ChainModel
  import opened Snapshot

  function Range(first: nat, top: nat): (s: set<nat>)
    ensures forall k: nat :: k in s <==> first <= k <= top
    ensures |s| == if first <= top then top - first + 1 else 0
    decreases if first <= top then top - first + 1 else 0
  {
    if first > top then {} else {first} + Range(first + 1, top)
  }

  lemma FullSubset<T>(a: set<T>, b: set<T>)
    requires a <= b && |a| == |b|
    ensures a == b
  {
    assert b == a + (b - a);
  }

  /** Counting the suffix rows is enough to know that no height is missing. */
  lemma ContiguousRows(staged: Store, first: nat, tip: Option<Tip>)
    requires ReadTip(staged) == Ok(tip) && SuffixContiguous(staged, first, tip)
    ensures forall k: nat | k >= first :: k in staged.canonical <==> tip.Some? && k <= tip.value.height
  {
    if tip.None? {
      assert forall k: nat :: k !in staged.canonical;
    } else {
      var rows := HeightsFrom(staged.canonical, first);
      FullSubset(rows, Range(first, tip.value.height));
      assert forall k: nat :: k in rows <==> k in staged.canonical && k >= first;
    }
  }

  method ScanDivergence(live: map<nat, Hash>, staged: map<nat, Hash>, start: nat) returns (r: Result<nat, ChainError>)
    ensures r == Scan(live, staged, start)
  {
    var height: nat := start;
    while true
      invariant Scan(live, staged, start) == Scan(live, staged, height)
      decreases height
    {
      if height !in live || height !in staged {
        return Err(Storage);
      }
      if live[height] == staged[height] {
        return if height >= U32_MAX then Err(InvalidDifficultyWindow) else Ok(height + 1);
      }
      if height == 0 {
        return Err(Storage);
      }
      height := height - 1;
    }
  }

  method ValidateJournalRows(P: Params, staged: Db) returns (ok: bool)
    requires JournalPresent(staged)
    ensures ok <==> forall j <- staged.journal :: ValidJournalRow(P, staged.store, j)
  {
    var remaining := staged.journal;
    while remaining != {}
      invariant remaining <= staged.journal
      invariant forall j <- staged.journal - remaining :: ValidJournalRow(P, staged.store, j)
      decreases |remaining|
    {
      var j :| j in remaining;
      if !ValidJournalRow(P, staged.store, j) {
        return false;
      }
      remaining := remaining - {j};
    }
    return true;
  }

  method ValidateSuffix(P: Params, staged: Store, first: nat, tip: Option<Tip>) returns (ok: bool)
    requires ReadTip(staged) == Ok(tip)
    ensures ok <==> ValidSuffix(P, staged, first, tip)
  {
    if !SuffixContiguous(staged, first, tip) || !SuffixIndexed(staged, first) {
      return false;
    }
    ContiguousRows(staged, first, tip);
    if first > 0 && first - 1 !in staged.canonical {
      return false;
    }
    if tip.None? || tip.value.height < first {
      return true;
    }
    var previous: Option<Hash> := if first == 0 then None else Some(staged.canonical[first - 1]);
    for k := first to tip.value.height + 1
      invariant previous == if k == 0 then None else Some(staged.canonical[k - 1])
      invariant k > 0 ==> k - 1 in staged.canonical
      invariant forall i: nat | first <= i < k :: LinkedRow(P, staged, i)
    {
      var hash := staged.canonical[k];
      var header := staged.headers[hash].header;
      if P.hash(header) != hash {
        assert !LinkedRow(P, staged, k);
        return false;
      }
      match previous {
        case None =>
          if header.prevBlock != ZERO_HASH {
            assert !LinkedRow(P, staged, k);
            return false;
          }
        case Some(parent) =>
          if header.prevBlock != parent {
            assert !LinkedRow(P, staged, k);
            return false;
          }
      }
      previous := Some(hash);
    }
    return true;
  }

  lemma LeastIs(heights: set<nat>, k: nat)
    requires k in heights && forall i <- heights :: k <= i
    ensures k == Least(heights)
  {
  }

  class SqliteHeaderStore {
    const params: Params
    var store: Store
    var generation: U64
    var baseline: Option<Baseline>
    var journal: set<Hash>

    constructor (params: Params)
      ensures this.params == params && State() == EMPTY_DB
    {
      this.params := params;
      store, generation, baseline, journal := EMPTY_STORE, 0, None, {};
    }

    function State(): Db
      reads this
    {
      Db(store, generation, baseline, journal)
    }

    method BeginSnapshotPublicationDelta(expectedGeneration: U64, expectedBest: Option<Hash>)
      returns (r: Result<(), ChainError>)
      modifies this`baseline, this`journal
      ensures match BeginDelta(old(State()), expectedGeneration, expectedBest)
              case Ok(db) => State() == db && r == Ok(())
              case Err(e) => State() == old(State()) && r == Err(e)
    {
      if generation != expectedGeneration || store.best != expectedBest {
        return Err(Storage);
      }
      journal := {};
      baseline := Some(Baseline(expectedGeneration, expectedBest));
      return Ok(());
    }

    /** Writes new tables; the insert trigger fires for every header row that was not there. */
    method Commit(newStore: Store, newGeneration: U64)
      modifies this
      ensures State() == Installed(old(State()), newStore, newGeneration)
    {
      if baseline.Some? {
        journal := journal + (newStore.headers.Keys - store.headers.Keys);
      }
      store := newStore;
      generation := newGeneration;
    }

    method PublishSnapshotFromIfCurrent(staged: Db, expectedGeneration: U64, expectedBest: Option<Hash>)
      returns (r: Result<bool, ChainError>)
      modifies this
      ensures Published(State(), r) == PublishIfCurrent(params, old(State()), staged, expectedGeneration, expectedBest)
    {
      if generation != expectedGeneration || store.best != expectedBest {
        return Ok(false);
      }
      if !ValidBaseline(staged, expectedGeneration, expectedBest) {
        return Err(Storage);
      }
      if !JournalPresent(staged) || !JournalConsistent(store, staged) {
        return Err(Storage);
      }
      var rows := ValidateJournalRows(params, staged);
      if !rows {
        return Err(Storage);
      }
      var published :- PublishCanonicalSuffix(WithJournal(store, staged), staged);
      Commit(published, staged.generation);
      return Ok(true);
    }

    method PublishCanonicalSuffix(merged: Store, staged: Db) returns (r: Result<Store, ChainError>)
      ensures r == PublishSuffix(params, merged, staged)
    {
      var liveTip :- ReadTip(merged);
      var stagedTip :- ReadTip(staged.store);
      var found :- FirstCanonicalDivergence(merged, staged.store, liveTip, stagedTip);
      if found.None? {
        return Ok(merged.(best := staged.store.best));
      }
      var valid := ValidateSuffix(params, staged.store, found.value, stagedTip);
      if !valid || !SuffixCovered(merged, staged, found.value) {
        return Err(Storage);
      }
      var canonical := Spliced(merged.canonical, staged.store.canonical, found.value);
      return Ok(Store(merged.headers, canonical, staged.store.best));
    }

    method FirstCanonicalDivergence(live: Store, staged: Store, liveTip: Option<Tip>, stagedTip: Option<Tip>)
      returns (r: Result<Option<nat>, ChainError>)
      ensures r == FirstDivergence(live, staged, liveTip, stagedTip)
    {
      if liveTip == stagedTip {
        return Ok(None);
      }
      if liveTip.None? || stagedTip.None? {
        return Ok(Some(0));
      }
      var height :- ScanDivergence(live.canonical, staged.canonical, Min(liveTip.value.height, stagedTip.value.height));
      return Ok(Some(height));
    }

    method PublishSnapshotFrom(staged: Db) returns (r: Result<bool, ChainError>)
      modifies this
      ensures match PublishFull(old(State()), staged)
              case Ok(db) => State() == db && r == Ok(true)
              case Err(e) => State() == old(State()) && r == Err(e)
    {
      if exists h <- store.headers | h in staged.store.headers :: store.headers[h] != staged.store.headers[h] {
        return Err(Storage);
      }
      if !SuffixIndexed(staged.store, 0) {
        return Err(Storage);
      }
      var headers := staged.store.headers + store.headers;
      var canonical := store.canonical;
      var differences := Differences(store.canonical, staged.store.canonical);
      if differences != {} {
        assert Least(differences) in differences;
        var first :| first in differences && forall i <- differences :: first <= i;
        LeastIs(differences, first);
        canonical := Spliced(canonical, staged.store.canonical, first);
      }
      Commit(Store(headers, canonical, staged.store.best), staged.generation);
      return Ok(true);
    }
  }
}
