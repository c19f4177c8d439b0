/**
 * The in-memory header store and the chain on top of it, updated in place.
 *
 * Each method is tied to the function of `ChainModel` that gives its outcome on any store, reachable or not;
 * `ChainInvariant`, `ChainBatch` and `ChainRetarget` prove what those functions do to a valid store.
 */
module HeaderChain {
  import opened Wrappers
  import opened Pow
  import opened ChainModel
  import opened Order

  class MemoryHeaderStore {
    var headers: HeaderTable
    var canonical: map<nat, Hash>
    var best: Option<Hash>

    constructor ()
      ensures State() == EMPTY_STORE
    {
      headers, canonical, best := map[], map[], None;
    }

    function State(): Store
      reads this
    {
      Store(headers, canonical, best)
    }

    method PutHeader(x: StoredHeader) returns (r: Result<(), ChainError>)
      modifies this`headers
      ensures match Put(old(State()), x)
              case Ok(s) => State() == s && r == Ok(())
              case Err(e) => State() == old(State()) && r == Err(e)
    {
      if x.hash in headers {
        return Err(DuplicateHeader);
      }
      headers := headers[x.hash := x];
      return Ok(());
    }

    method PutHeaders(xs: seq<StoredHeader>) returns (r: Result<(), ChainError>)
      modifies this`headers
      ensures Outcome(State(), r) == PutAll(old(State()), xs)
    {
      for i := 0 to |xs|
        invariant PutAll(old(State()), xs) == PutAll(State(), xs[i..])
      {
        assert xs[i..][1..] == xs[i + 1..];
        r := PutHeader(xs[i]);
        if r.Err? {
          return r;
        }
      }
      return Ok(());
    }

    method PromoteCanonicalTip(x: StoredHeader) returns (r: Result<(), ChainError>)
      modifies this`canonical, this`best
      ensures match PromoteTip(old(State()), x)
              case Ok(s) => State() == s && r == Ok(())
              case Err(e) => State() == old(State()) && r == Err(e)
    {
      if x.hash !in headers {
        return Err(MissingBestHeader);
      }
      canonical := canonical[x.height := x.hash];
      best := Some(x.hash);
      return Ok(());
    }

    method PromoteCanonicalTips(xs: seq<StoredHeader>) returns (r: Result<(), ChainError>)
      modifies this`canonical, this`best
      ensures Outcome(State(), r) == PromoteTips(old(State()), xs)
    {
      for i := 0 to |xs|
        invariant PromoteTips(old(State()), xs) == PromoteTips(State(), xs[i..])
      {
        assert xs[i..][1..] == xs[i + 1..];
        r := PromoteCanonicalTip(xs[i]);
        if r.Err? {
          return r;
        }
      }
      return Ok(());
    }

    method ReplaceCanonicalChain(xs: seq<StoredHeader>) returns (r: Result<(), ChainError>)
      modifies this`canonical, this`best
      ensures match ReplaceCanonical(old(State()), xs)
              case Ok(s) => State() == s && r == Ok(())
              case Err(e) => State() == old(State()) && r == Err(e)
    {
      if xs == [] || exists x <- xs :: x.hash !in headers {
        return Err(MissingBestHeader);
      }
      canonical := map[];
      for i := 0 to |xs|
        invariant canonical == IndexOf(xs[..i]) && headers == old(headers) && best == old(best)
      {
        assert xs[..i + 1][..i] == xs[..i];
        canonical := canonical[xs[i].height := xs[i].hash];
      }
      assert xs[..|xs|] == xs;
      best := Some(xs[|xs| - 1].hash);
      return Ok(());
    }
  }

  lemma ReversedSnoc<T>(xs: seq<T>, x: T)
    ensures Reversed(xs + [x]) == [x] + Reversed(xs)
  {
  }

  function AppendTo<T>(r: Result<seq<T>, ChainError>, suffix: seq<T>): Result<seq<T>, ChainError> {
    match r
    case Ok(xs) => Ok(xs + suffix)
    case Err(e) => Err(e)
  }

  lemma AppendNothing<T>(r: Result<seq<T>, ChainError>)
    ensures AppendTo(r, []) == r
    ensures PrependAll([], r) == r
  {
    if r.Ok? {
      assert r.value + [] == r.value == [] + r.value;
    }
  }

  function PrependAll<T>(prefix: seq<T>, r: Result<seq<T>, ChainError>): Result<seq<T>, ChainError> {
    match r
    case Ok(xs) => Ok(prefix + xs)
    case Err(e) => Err(e)
  }

  // ---- The walk from a header to its root ----

  /** The rest of the walk, in front of what was collected on the way. */
  function Walked(H: HeaderTable, path: seq<StoredHeader>, current: StoredHeader): Result<seq<StoredHeader>, ChainError>
    requires path != []
  {
    AppendTo(PathTo(H, current), Reversed(path[..|path| - 1]))
  }

  lemma WalkStart(H: HeaderTable, current: StoredHeader)
    ensures Walked(H, [current], current) == PathTo(H, current)
  {
    AppendNothing(PathTo(H, current));
    assert Reversed([current][..0]) == [];
  }

  lemma ReversedPath(path: seq<StoredHeader>, current: StoredHeader)
    requires path != [] && path[|path| - 1] == current
    ensures Reversed(path) == [current] + Reversed(path[..|path| - 1])
  {
    ReversedSnoc(path[..|path| - 1], current);
    assert path[..|path| - 1] + [current] == path;
  }

  lemma WalkStep(H: HeaderTable, path: seq<StoredHeader>, current: StoredHeader, previous: StoredHeader)
    requires path != [] && path[|path| - 1] == current && current.height > 0
    requires Previous(H, current) == Ok(previous)
    ensures Walked(H, path + [previous], previous) == Walked(H, path, current)
  {
    ReversedPath(path, current);
    assert (path + [previous])[..|path|] == path;
    var below := PathTo(H, previous);
    if below.Ok? {
      assert below.value + [current] + Reversed(path[..|path| - 1]) == below.value + Reversed(path);
    }
  }

  lemma WalkEnd(H: HeaderTable, path: seq<StoredHeader>, current: StoredHeader)
    requires path != [] && path[|path| - 1] == current && current.height == 0
    ensures Walked(H, path, current) == Ok(Reversed(path))
  {
    ReversedPath(path, current);
  }

  class HeaderChain {
    const store: MemoryHeaderStore
    const params: Params

    constructor (store: MemoryHeaderStore, params: Params)
      ensures this.store == store && this.params == params
    {
      this.store := store;
      this.params := params;
    }

    // ---- Lookups, pending headers first ----

    method PreviousWithPending(x: StoredHeader, pending: HeaderTable) returns (r: Result<StoredHeader, ChainError>)
      ensures r == Previous(store.headers + pending, x)
    {
      var previous: StoredHeader;
      if x.header.prevBlock in pending {
        previous := pending[x.header.prevBlock];
      } else if x.header.prevBlock in store.headers {
        previous := store.headers[x.header.prevBlock];
      } else {
        return Err(UnknownParent);
      }
      if previous.height == U32_MAX || previous.height + 1 != x.height {
        return Err(InvalidDifficultyWindow);
      }
      return Ok(previous);
    }

    method AncestorWithPending(x: StoredHeader, height: nat, pending: HeaderTable)
      returns (r: Result<StoredHeader, ChainError>)
      ensures r == Ancestor(store.headers + pending, x, height)
    {
      if height > x.height {
        return Err(InvalidDifficultyWindow);
      }
      var current := x;
      while current.height > height
        invariant height <= current.height
        invariant Ancestor(store.headers + pending, x, height) == Ancestor(store.headers + pending, current, height)
        decreases current.height
      {
        var previous := PreviousWithPending(current, pending);
        if previous.Err? {
          return previous;
        }
        current := previous.value;
      }
      return Ok(current);
    }

    method SuitableBlockWithPending(z: StoredHeader, pending: HeaderTable) returns (r: Result<StoredHeader, ChainError>)
      ensures r == Suitable(store.headers + pending, z)
    {
      var y :- PreviousWithPending(z, pending);
      var x :- PreviousWithPending(y, pending);
      return Ok(MiddleByTime(x, y, z));
    }

    method ExpectedMainnetBits(parent: StoredHeader, pending: HeaderTable) returns (r: Result<nat, ChainError>)
      ensures r == ExpectedBits(store.headers + pending, parent)
    {
      if parent.height < BLOCKS_PER_DAY + 2 {
        return Ok(MAINNET_POW_BITS);
      }
      var last :- SuitableBlockWithPending(parent, pending);
      var ancestor :- AncestorWithPending(parent, parent.height - BLOCKS_PER_DAY, pending);
      var first :- SuitableBlockWithPending(ancestor, pending);
      return RetargetBits(first, last);
    }

    method ValidateDifficultyBits(header: BlockHeader, parent: StoredHeader, pending: HeaderTable)
      returns (r: Result<(), ChainError>)
      ensures r == CheckBits(params, store.headers + pending, header, parent)
    {
      if params.policy.Permissive? {
        return Ok(());
      }
      var expected :- ExpectedMainnetBits(parent, pending);
      if header.bits != expected {
        return Err(InvalidDifficultyBits(header.bits, expected));
      }
      return Ok(());
    }

    method CanonicalChainTo(hash: Hash) returns (r: Result<seq<StoredHeader>, ChainError>)
      ensures r == ChainTo(store.headers, hash)
    {
      if hash !in store.headers {
        return Err(MissingBestHeader);
      }
      var current := store.headers[hash];
      var path := [current];
      WalkStart(store.headers, current);
      while current.height > 0
        invariant |path| > 0 && path[|path| - 1] == current
        invariant ChainTo(store.headers, hash)
               == Walked(store.headers, path, current)
        decreases current.height
      {
        if current.header.prevBlock !in store.headers {
          return Err(UnknownParent);
        }
        var previous := store.headers[current.header.prevBlock];
        if previous.height == U32_MAX || previous.height + 1 != current.height {
          return Err(InvalidDifficultyWindow);
        }
        WalkStep(store.headers, path, current, previous);
        current := previous;
        path := path + [current];
      }
      WalkEnd(store.headers, path, current);
      return Ok(Reversed(path));
    }

    method PromoteBestHash(hash: Hash) returns (r: Result<(), ChainError>)
      modifies store
      ensures match PromoteBest(old(store.State()), hash)
              case Ok(s) => store.State() == s && r == Ok(())
              case Err(e) => store.State() == old(store.State()) && r == Err(e)
    {
      var path :- CanonicalChainTo(hash);
      r := store.ReplaceCanonicalChain(path);
    }

    // ---- Insertion ----

    method InsertGenesis(header: BlockHeader) returns (r: Result<StoredHeader, ChainError>)
      modifies store
      ensures Outcome(store.State(), r) == ChainModel.InsertGenesis(params, old(store.State()), header)
    {
      if params.policy.Mainnet? && header != MAINNET_GENESIS {
        return Err(InvalidGenesisHeader);
      }
      var work :- LiftPow(WorkForBits(header.bits));
      var x := StoredHeader(params.hash(header), header, 0, work);
      var _ :- store.PutHeader(x);
      var _ :- PromoteBestHash(x.hash);
      return Ok(x);
    }

    method InsertHeader(header: BlockHeader) returns (r: Result<StoredHeader, ChainError>)
      modifies store
      ensures Outcome(store.State(), r) == ChainModel.InsertHeader(params, old(store.State()), header)
    {
      assert store.headers + map[] == store.headers;
      if header.prevBlock !in store.headers {
        return Err(UnknownParent);
      }
      var parent := store.headers[header.prevBlock];
      var hash := params.hash(header);
      var height :- ChildHeight(parent);
      var _ :- ValidateDifficultyBits(header, parent, map[]);
      var _ :- CheckPow(params, header);
      var _ :- CheckCheckpoint(params, height, hash);
      var work :- LiftPow(WorkForBits(header.bits));
      var x := StoredHeader(hash, header, height, parent.chainwork + work);
      var _ :- store.PutHeader(x);

      var best :- BestHeader(store.State());
      var extendsBest := best.Some? && x.header.prevBlock == best.value.hash;
      var shouldPromote := best.None? || x.chainwork > best.value.chainwork;
      if shouldPromote {
        var promoted: Result<(), ChainError>;
        if extendsBest {
          promoted := store.PromoteCanonicalTip(x);
        } else {
          promoted := PromoteBestHash(hash);
        }
        var _ :- promoted;
      }
      return Ok(x);
    }

    /** Validates one header of a batch; the work of each `bits` value is computed once and remembered. */
    method AdmitWithPending(header: BlockHeader, pending: HeaderTable, cache: map<U32, nat>)
      returns (r: Result<StoredHeader, ChainError>, cache': map<U32, nat>)
      requires forall b <- cache :: WorkForBits(b) == Ok(cache[b])
      ensures r == AdmitBatched(params, store.headers + pending, header)
      ensures r.Ok? ==> r.value.hash == params.hash(header)
      ensures forall b <- cache' :: WorkForBits(b) == Ok(cache'[b])
    {
      cache' := cache;
      var parent: StoredHeader;
      if header.prevBlock in pending {
        parent := pending[header.prevBlock];
      } else if header.prevBlock in store.headers {
        parent := store.headers[header.prevBlock];
      } else {
        return Err(UnknownParent), cache';
      }
      var hash := params.hash(header);
      var bits := ValidateDifficultyBits(header, parent, pending);
      if bits.Err? {
        return Err(bits.error), cache';
      }
      var pow := CheckPow(params, header);
      if pow.Err? {
        return Err(pow.error), cache';
      }
      var height := ChildHeight(parent);
      if height.Err? {
        return Err(height.error), cache';
      }
      var checkpoint := CheckCheckpoint(params, height.value, hash);
      if checkpoint.Err? {
        return Err(checkpoint.error), cache';
      }
      if header.bits !in cache' {
        var work := LiftPow(WorkForBits(header.bits));
        if work.Err? {
          return Err(work.error), cache';
        }
        cache' := cache'[header.bits := work.value];
      }
      r := Ok(StoredHeader(hash, header, height.value, parent.chainwork + cache'[header.bits]));
    }

    /** The validation loop with its pending overlay, its seen set and its per-bits work cache. */
    method AcceptBatch(headers: seq<BlockHeader>) returns (r: Result<seq<StoredHeader>, ChainError>)
      ensures r == AcceptAll(params, store.headers, headers)
    {
      var accepted: seq<StoredHeader> := [];
      var pending: HeaderTable := map[];
      var seen: set<Hash> := {};
      var workByBits: map<U32, nat> := map[];
      assert store.headers + pending == store.headers;
      assert headers[0..] == headers;
      AppendNothing(AcceptAll(params, store.headers, headers));
      for i := 0 to |headers|
        invariant pending.Keys <= seen <= store.headers.Keys + pending.Keys
        invariant forall b <- workByBits :: WorkForBits(b) == Ok(workByBits[b])
        invariant AcceptAll(params, store.headers, headers)
               == PrependAll(accepted, AcceptAll(params, store.headers + pending, headers[i..]))
      {
        assert headers[i..][1..] == headers[i + 1..];
        var hash := params.hash(headers[i]);
        var firstTime := hash !in seen;
        seen := seen + {hash};
        if !firstTime || hash in store.headers {
          continue;
        }
        ghost var H := store.headers + pending;
        assert hash !in H;
        var admitted;
        admitted, workByBits := AdmitWithPending(headers[i], pending, workByBits);
        if admitted.Err? {
          return Err(admitted.error);
        }
        var x := admitted.value;
        assert store.headers + pending[hash := x] == H[hash := x];
        ghost var rest := AcceptAll(params, H[hash := x], headers[i + 1..]);
        if rest.Ok? {
          assert accepted + ([x] + rest.value) == accepted + [x] + rest.value;
        }
        pending := pending[hash := x];
        accepted := accepted + [x];
      }
      assert accepted + [] == accepted;
      return Ok(accepted);
    }

    method InsertHeaders(headers: seq<BlockHeader>) returns (r: Result<seq<StoredHeader>, ChainError>)
      modifies store
      ensures Outcome(store.State(), r) == ChainModel.InsertHeaders(params, old(store.State()), headers)
    {
      var accepted :- AcceptBatch(headers);
      if accepted == [] {
        return Ok(accepted);
      }
      var best :- BestHeader(store.State());
      var k := LastMax(accepted);
      var shouldPromote := best.None? || accepted[k].chainwork > best.value.chainwork;
      var extendsBest := best.Some? && accepted[0].header.prevBlock == best.value.hash && Linked(accepted[..k + 1]);
      var _ :- store.PutHeaders(accepted);
      if shouldPromote {
        if extendsBest {
          var _ :- store.PromoteCanonicalTips(accepted[..k + 1]);
        } else {
          var _ :- PromoteBestHash(accepted[k].hash);
        }
      }
      return Ok(accepted);
    }
  }
}
