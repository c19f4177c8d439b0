/**
 * The invariant of a header store and its preservation by every call, successful or not.
 *
 * A valid store is determined by its headers and its best hash: the canonical index is the ancestry
 * of the best header. Insertion is therefore compared with `Rebuilt`, which recomputes the index from
 * nothing, and the incremental promotions are shown to produce the same store.
 */
module ChainInvariant {
  import opened Wrappers
  import opened Pow
  import opened ChainModel

  /** `x` is a root, or carries on from its stored parent. */
  ghost predicate Follows(P: Params, H: HeaderTable, x: StoredHeader) {
    && x.hash == P.hash(x.header)
    && WorkForBits(x.header.bits).Ok?
    && var work := WorkForBits(x.header.bits).value;
       if x.height == 0 then x.chainwork == work
       else
         && x.header.prevBlock in H
         && x.height == H[x.header.prevBlock].height + 1
         && x.chainwork == H[x.header.prevBlock].chainwork + work
         && VerifyPow(x.hash, x.header.bits) == Ok(true)
  }

  ghost predicate ValidEntry(P: Params, H: HeaderTable, h: Hash)
    requires h in H
  {
    H[h].hash == h && Follows(P, H, H[h])
  }

  /** Headers are parent-closed, and heights and chainworks follow the parents. */
  ghost predicate ValidHeaders(P: Params, H: HeaderTable) {
    forall h: Hash {:trigger ValidEntry(P, H, h)} :: h in H ==> ValidEntry(P, H, h)
  }

  /** Hash of the ancestor of `h` at a height: the reference for the canonical index. */
  ghost function AncestorHash(P: Params, H: HeaderTable, h: Hash, height: nat): (r: Hash)
    requires ValidHeaders(P, H) && h in H && height <= H[h].height
    ensures r in H && H[r].height == height
    decreases H[h].height
  {
    assert ValidEntry(P, H, h);
    if height == H[h].height then h else AncestorHash(P, H, H[h].header.prevBlock, height)
  }

  ghost function Ancestry(P: Params, H: HeaderTable, h: Hash): map<nat, Hash>
    requires ValidHeaders(P, H) && h in H
  {
    map i: nat | i <= H[h].height :: AncestorHash(P, H, h, i)
  }

  ghost function Rebuilt(P: Params, H: HeaderTable, best: Hash): Store
    requires ValidHeaders(P, H) && best in H
  {
    Store(H, Ancestry(P, H, best), Some(best))
  }

  ghost predicate Heaviest(H: HeaderTable, best: Hash)
    requires best in H
  {
    forall h <- H :: H[h].chainwork <= H[best].chainwork
  }

  /** The headers are valid and the index is exactly the ancestry of the best. */
  ghost predicate Indexed(P: Params, s: Store) {
    && ValidHeaders(P, s.headers)
    && match s.best
       case None => s.canonical == map[]
       case Some(b) => b in s.headers && s == Rebuilt(P, s.headers, b)
  }

  /** In addition nothing stored is heavier than the best. */
  ghost predicate Valid(P: Params, s: Store) {
    && Indexed(P, s)
    && match s.best
       case None => s == EMPTY_STORE
       case Some(b) => Heaviest(s.headers, b)
  }

  ghost predicate SingleRoot(H: HeaderTable, genesis: BlockHeader) {
    forall h <- H | H[h].height == 0 :: H[h].header == genesis
  }

  ghost predicate Extends(H: HeaderTable, H': HeaderTable) {
    forall h <- H :: h in H' && H'[h] == H[h]
  }

  ghost predicate Agree(H: HeaderTable, H': HeaderTable) {
    forall h <- H | h in H' :: H'[h] == H[h]
  }

  function BestWork(s: Store): nat {
    match s.best
    case None => 0
    case Some(b) => if b in s.headers then s.headers[b].chainwork else 0
  }

  /** Nothing stored is lost or changed, and any change of best strictly raises its chainwork. */
  ghost predicate Grows(s: Store, s': Store) {
    && Extends(s.headers, s'.headers)
    && BestWork(s) <= BestWork(s')
    && (s'.best == s.best || BestWork(s) < BestWork(s'))
  }

  ghost predicate NoNewRoots(s: Store, s': Store) {
    forall h <- s'.headers | h !in s.headers :: s'.headers[h].height > 0
  }

  /** Nothing that was added is heavier than the best. */
  ghost predicate NewCarried(s: Store, s': Store) {
    forall h <- s'.headers | h !in s.headers :: s'.headers[h].chainwork <= BestWork(s')
  }

  // ---- Ancestry ----

  /** Two valid tables that agree on their common hashes give a common hash the same ancestors. */
  lemma {:induction false} AncestorStable(P: Params, H: HeaderTable, H': HeaderTable, h: Hash, i: nat)
    requires ValidHeaders(P, H) && ValidHeaders(P, H') && Agree(H, H')
    requires h in H && h in H' && i <= H[h].height
    ensures AncestorHash(P, H', h, i) == AncestorHash(P, H, h, i)
    decreases H[h].height
  {
    if i < H[h].height {
      assert ValidEntry(P, H, h) && ValidEntry(P, H', h);
      AncestorStable(P, H, H', H[h].header.prevBlock, i);
    }
  }

  lemma AncestryStable(P: Params, H: HeaderTable, H': HeaderTable, h: Hash)
    requires ValidHeaders(P, H) && ValidHeaders(P, H') && Agree(H, H') && h in H && h in H'
    ensures Ancestry(P, H', h) == Ancestry(P, H, h)
  {
    forall i: nat | i <= H[h].height
      ensures AncestorHash(P, H', h, i) == AncestorHash(P, H, h, i)
    {
      AncestorStable(P, H, H', h, i);
    }
  }

  lemma {:induction false} AncestorOfAncestor(P: Params, H: HeaderTable, h: Hash, i: nat, j: nat)
    requires ValidHeaders(P, H) && h in H && j <= i <= H[h].height
    ensures AncestorHash(P, H, AncestorHash(P, H, h, i), j) == AncestorHash(P, H, h, j)
    decreases H[h].height
  {
    if i < H[h].height {
      assert ValidEntry(P, H, h);
      AncestorOfAncestor(P, H, H[h].header.prevBlock, i, j);
    }
  }

  /** The index grows by exactly one entry from parent to child: why incremental promotion is enough. */
  lemma AncestryStep(P: Params, H: HeaderTable, h: Hash)
    requires ValidHeaders(P, H) && h in H && H[h].height > 0
    ensures H[h].header.prevBlock in H
    ensures Ancestry(P, H, h) == Ancestry(P, H, H[h].header.prevBlock)[H[h].height := h]
  {
    assert ValidEntry(P, H, h);
  }

  lemma {:induction false} PathIsAncestry(P: Params, H: HeaderTable, h: Hash)
    requires ValidHeaders(P, H) && h in H
    ensures var r := PathTo(H, H[h]);
            r.Ok? && |r.value| == H[h].height + 1 && r.value[H[h].height] == H[h]
            && (forall x <- r.value :: x.hash in H) && IndexOf(r.value) == Ancestry(P, H, h)
    decreases H[h].height
  {
    assert ValidEntry(P, H, h);
    if H[h].height == 0 {
      assert IndexOf([H[h]]) == Ancestry(P, H, h);
    } else {
      var p := H[h].header.prevBlock;
      PathIsAncestry(P, H, p);
      AncestryStep(P, H, h);
      var path := PathTo(H, H[p]).value + [H[h]];
      assert path[..|path| - 1] == PathTo(H, H[p]).value;
    }
  }

  lemma PromoteBestRebuilds(P: Params, s: Store, h: Hash)
    requires ValidHeaders(P, s.headers) && h in s.headers
    ensures PromoteBest(s, h) == Ok(Rebuilt(P, s.headers, h))
  {
    assert ValidEntry(P, s.headers, h);
    PathIsAncestry(P, s.headers, h);
  }

  // ---- Admission ----

  lemma AdmitOrdersAgree(P: Params, H: HeaderTable, header: BlockHeader)
    ensures Admit(P, H, header).Ok? <==> AdmitBatched(P, H, header).Ok?
    ensures Admit(P, H, header).Ok? ==> Admit(P, H, header) == AdmitBatched(P, H, header)
  {
  }

  lemma AdmittedFollows(P: Params, H: HeaderTable, header: BlockHeader, x: StoredHeader)
    requires Admit(P, H, header) == Ok(x)
    ensures x.header == header && Follows(P, H, x) && x.height > 0
  {
  }

  lemma FollowerIsValid(P: Params, H: HeaderTable, x: StoredHeader)
    requires ValidHeaders(P, H) && Follows(P, H, x) && x.hash !in H
    ensures ValidHeaders(P, H[x.hash := x]) && Extends(H, H[x.hash := x])
  {
    var H' := H[x.hash := x];
    forall h <- H' ensures ValidEntry(P, H', h) {
      if h != x.hash {
        assert ValidEntry(P, H, h);
      }
    }
  }

  lemma Adopted(P: Params, s: Store, H: HeaderTable)
    requires Indexed(P, s) && ValidHeaders(P, H) && Extends(s.headers, H)
    ensures Indexed(P, s.(headers := H))
    ensures s.best.Some? ==> Rebuilt(P, H, s.best.value) == s.(headers := H)
  {
    if s.best.Some? {
      AncestryStable(P, s.headers, H, s.best.value);
    }
  }

  // ---- The three calls ----

  /** Which best hash wins after `x` joins a valid store. */
  function BestAfter(s: Store, x: StoredHeader): Hash {
    match s.best
    case Some(b) => if b in s.headers && x.chainwork <= s.headers[b].chainwork then b else x.hash
    case None => x.hash
  }

  /** Joining one header leaves exactly the store rebuilt from the enlarged table. */
  lemma JoinRebuilds(P: Params, s: Store, x: StoredHeader)
    requires Indexed(P, s) && Follows(P, s.headers, x) && x.height > 0 && x.hash !in s.headers
    ensures var H := s.headers[x.hash := x];
            && ValidHeaders(P, H)
            && Join(s, x) == Outcome(Rebuilt(P, H, BestAfter(s, x)), Ok(x))
            && (Valid(P, s) ==> Valid(P, Join(s, x).store))
            && Grows(s, Join(s, x).store) && NoNewRoots(s, Join(s, x).store) && NewCarried(s, Join(s, x).store)
  {
    var H := s.headers[x.hash := x];
    var s1 := s.(headers := H);
    FollowerIsValid(P, s.headers, x);
    Adopted(P, s, H);
    if s.best.Some? {
      assert ValidEntry(P, s.headers, s.best.value);
    }
    if BestAfter(s, x) == x.hash {
      PromoteBestRebuilds(P, s1, x.hash);
      AncestryStep(P, H, x.hash);
    }
  }

  lemma InsertHeaderRebuilds(P: Params, s: Store, header: BlockHeader)
    requires Indexed(P, s)
    ensures var out := InsertHeader(P, s, header);
            match Admit(P, s.headers, header)
            case Err(e) => out == Outcome(s, Err(e))
            case Ok(x) =>
              if x.hash in s.headers then out == Outcome(s, Err(DuplicateHeader))
              else
                var H := s.headers[x.hash := x];
                && ValidHeaders(P, H)
                && out == Outcome(Rebuilt(P, H, BestAfter(s, x)), Ok(x))
    ensures var s' := InsertHeader(P, s, header).store;
            && Indexed(P, s') && (Valid(P, s) ==> Valid(P, s'))
            && Grows(s, s') && NoNewRoots(s, s') && NewCarried(s, s')
  {
    var r := Admit(P, s.headers, header);
    if r.Ok? && r.value.hash !in s.headers {
      AdmittedFollows(P, s.headers, header, r.value);
      JoinRebuilds(P, s, r.value);
    }
  }

  /** What a caller can tell beforehand: the policy forbids the header, its difficulty is no target, or it is known. */
  predicate GenesisRefused(P: Params, s: Store, header: BlockHeader) {
    || (P.policy.Mainnet? && header != MAINNET_GENESIS)
    || WorkForBits(header.bits).Err?
    || P.hash(header) in s.headers
  }

  /** Inserting a root never fails half-way, and promotes the root whatever the best was. */
  lemma InsertGenesisRebuilds(P: Params, s: Store, header: BlockHeader)
    requires Indexed(P, s)
    ensures InsertGenesis(P, s, header).result.Err? <==> GenesisRefused(P, s, header)
    ensures var out := InsertGenesis(P, s, header);
            match out.result
            case Err(_) => out.store == s
            case Ok(x) =>
              && x == StoredHeader(P.hash(header), header, 0, WorkForBits(header.bits).value)
              && x.hash !in s.headers
              && ValidHeaders(P, s.headers[x.hash := x])
              && out.store == Rebuilt(P, s.headers[x.hash := x], x.hash)
  {
    if !GenesisRefused(P, s, header) {
      var x := StoredHeader(P.hash(header), header, 0, WorkForBits(header.bits).value);
      FollowerIsValid(P, s.headers, x);
      PromoteBestRebuilds(P, s.(headers := s.headers[x.hash := x]), x.hash);
    }
  }

  /** A second root keeps the store valid only if it is at least as heavy as the best. */
  lemma InsertGenesisValidIff(P: Params, s: Store, header: BlockHeader)
    requires Valid(P, s)
    ensures var out := InsertGenesis(P, s, header);
            Valid(P, out.store) <==>
            GenesisRefused(P, s, header) || s.best.None? || BestWork(s) <= WorkForBits(header.bits).value
  {
    InsertGenesisRebuilds(P, s, header);
    var out := InsertGenesis(P, s, header);
    if out.result.Ok? && s.best.Some? {
      assert out.store.headers[s.best.value] == s.headers[s.best.value];
    }
  }

  lemma SingleRootStored(P: Params, H: HeaderTable, genesis: BlockHeader)
    requires ValidHeaders(P, H) && SingleRoot(H, genesis) && H != map[]
    ensures P.hash(genesis) in H
  {
    var h :| h in H;
    var root := AncestorHash(P, H, h, 0);
    assert ValidEntry(P, H, root);
  }

  // ---- Batches ----

  ghost function Overlay(H: HeaderTable, xs: seq<StoredHeader>): HeaderTable
    decreases |xs|
  {
    if xs == [] then H else Overlay(H[xs[0].hash := xs[0]], xs[1..])
  }

  /** `xs` can be put one after the other on top of `s`. */
  ghost predicate Joinable(P: Params, s: Store, xs: seq<StoredHeader>) {
    var H := Overlay(s.headers, xs);
    && ValidHeaders(P, H) && Extends(s.headers, H)
    && (forall x <- xs :: x.hash in H && H[x.hash] == x && x.height > 0)
    && (forall h <- H | h !in s.headers :: H[h] in xs)
    && PutAll(s, xs) == Outcome(s.(headers := H), Ok(()))
  }

  lemma {:induction false} AcceptedAreJoinable(P: Params, s: Store, headers: seq<BlockHeader>)
    requires ValidHeaders(P, s.headers) && AcceptAll(P, s.headers, headers).Ok?
    ensures Joinable(P, s, AcceptAll(P, s.headers, headers).value)
    decreases |headers|
  {
    var H := s.headers;
    if headers == [] {
    } else if P.hash(headers[0]) in H {
      AcceptedAreJoinable(P, s, headers[1..]);
    } else {
      var x := AdmitBatched(P, H, headers[0]).value;
      AdmitOrdersAgree(P, H, headers[0]);
      AdmittedFollows(P, H, headers[0], x);
      FollowerIsValid(P, H, x);
      var H1 := H[x.hash := x];
      AcceptedAreJoinable(P, s.(headers := H1), headers[1..]);
      JoinableStep(P, s, x, AcceptAll(P, H1, headers[1..]).value);
    }
  }

  lemma JoinableStep(P: Params, s: Store, x: StoredHeader, xs: seq<StoredHeader>)
    requires x.hash !in s.headers && x.height > 0
    requires Joinable(P, s.(headers := s.headers[x.hash := x]), xs)
    ensures Joinable(P, s, [x] + xs)
  {
    assert ([x] + xs)[1..] == xs;
    assert s.headers[x.hash := x][x.hash] == x;
  }

  lemma {:induction false} PromoteTipsRebuilds(P: Params, s: Store, b: Hash, xs: seq<StoredHeader>)
    requires ValidHeaders(P, s.headers) && b in s.headers && s == Rebuilt(P, s.headers, b)
    requires xs != [] && xs[0].header.prevBlock == b && Linked(xs)
    requires forall x <- xs :: x.hash in s.headers && s.headers[x.hash] == x && x.height > 0
    ensures PromoteTips(s, xs) == Outcome(Rebuilt(P, s.headers, xs[|xs| - 1].hash), Ok(()))
    decreases |xs|
  {
    var x := xs[0];
    AncestryStep(P, s.headers, x.hash);
    var s1 := PromoteTip(s, x).value;
    assert s1 == Rebuilt(P, s.headers, x.hash);
    if |xs| > 1 {
      assert xs[1..][0] == xs[1];
      PromoteTipsRebuilds(P, s1, x.hash, xs[1..]);
    }
  }

  lemma HeaviestAfter(P: Params, s: Store, xs: seq<StoredHeader>)
    requires Indexed(P, s) && xs != [] && Joinable(P, s, xs)
    ensures var H := Overlay(s.headers, xs);
            var best := BestAfter(s, xs[LastMax(xs)]);
            && best in H && (Valid(P, s) ==> Heaviest(H, best))
            && Grows(s, Rebuilt(P, H, best)) && NoNewRoots(s, Rebuilt(P, H, best)) && NewCarried(s, Rebuilt(P, H, best))
  {
    assert ValidEntry(P, Overlay(s.headers, xs), xs[LastMax(xs)].hash);
  }

  lemma PromoteBatchRebuilds(P: Params, s: Store, s1: Store, xs: seq<StoredHeader>)
    requires Indexed(P, s) && xs != [] && s1 == s.(headers := s1.headers)
    requires ValidHeaders(P, s1.headers) && Extends(s.headers, s1.headers)
    requires forall x <- xs :: x.hash in s1.headers && s1.headers[x.hash] == x && (s.best.Some? ==> x.height > 0)
    requires BestHeader(s).Ok?
    ensures BestAfter(s, xs[LastMax(xs)]) in s1.headers
    ensures PromoteBatch(s1, BestHeader(s).value, xs)
         == Outcome(Rebuilt(P, s1.headers, BestAfter(s, xs[LastMax(xs)])), Ok(()))
  {
    var k := LastMax(xs);
    if s.best.Some? {
      assert ValidEntry(P, s.headers, s.best.value);
      AncestryStable(P, s.headers, s1.headers, s.best.value);
      if xs[0].header.prevBlock == s.best.value && Linked(xs[..k + 1]) {
        PromoteTipsRebuilds(P, s1, s.best.value, xs[..k + 1]);
      }
    }
    PromoteBestRebuilds(P, s1, xs[k].hash);
  }

  lemma JoinAllRebuilds(P: Params, s: Store, xs: seq<StoredHeader>)
    requires Indexed(P, s) && xs != [] && Joinable(P, s, xs)
    ensures var H := Overlay(s.headers, xs);
            var best := BestAfter(s, xs[LastMax(xs)]);
            && best in H && (Valid(P, s) ==> Heaviest(H, best))
            && JoinAll(s, xs) == Outcome(Rebuilt(P, H, best), Ok(xs))
  {
    HeaviestAfter(P, s, xs);
    PromoteBatchRebuilds(P, s, s.(headers := Overlay(s.headers, xs)), xs);
  }

  lemma InsertHeadersRebuilds(P: Params, s: Store, headers: seq<BlockHeader>)
    requires Indexed(P, s)
    ensures var out := InsertHeaders(P, s, headers);
            match AcceptAll(P, s.headers, headers)
            case Err(e) => out == Outcome(s, Err(e))
            case Ok(xs) =>
              && Joinable(P, s, xs)
              && if xs == [] then out == Outcome(s, Ok([]))
                 else
                   var H := Overlay(s.headers, xs);
                   var best := BestAfter(s, xs[LastMax(xs)]);
                   best in H && (Valid(P, s) ==> Heaviest(H, best)) && out == Outcome(Rebuilt(P, H, best), Ok(xs))
    ensures var s' := InsertHeaders(P, s, headers).store;
            && Indexed(P, s') && (Valid(P, s) ==> Valid(P, s'))
            && Grows(s, s') && NoNewRoots(s, s') && NewCarried(s, s')
  {
    var r := AcceptAll(P, s.headers, headers);
    if r.Ok? {
      AcceptedAreJoinable(P, s, headers);
      if r.value != [] {
        HeaviestAfter(P, s, r.value);
        JoinAllRebuilds(P, s, r.value);
      }
    }
  }

  // ---- Runs ----

  /** The invariant of runs with one genesis header, which `Mainnet` enforces by itself. */
  ghost predicate ValidFrom(P: Params, s: Store, genesis: BlockHeader) {
    Valid(P, s) && SingleRoot(s.headers, genesis)
  }

  ghost predicate GenesisFixed(P: Params, op: Op, genesis: BlockHeader) {
    if P.policy.Mainnet? then genesis == MAINNET_GENESIS else op.Genesis? ==> op.header == genesis
  }

  ghost predicate IndexedFrom(P: Params, s: Store, genesis: BlockHeader) {
    Indexed(P, s) && SingleRoot(s.headers, genesis)
  }

  /** What a call keeps even of a store in which something heavier than the best still waits to be promoted. */
  lemma ApplyKeepsIndexed(P: Params, s: Store, op: Op, genesis: BlockHeader)
    requires IndexedFrom(P, s, genesis) && GenesisFixed(P, op, genesis)
    ensures var s' := Apply(P, s, op);
            && IndexedFrom(P, s', genesis) && (Valid(P, s) ==> Valid(P, s'))
            && Grows(s, s') && NewCarried(s, s')
  {
    match op
    case Genesis(header) =>
      InsertGenesisRebuilds(P, s, header);
      if s.headers != map[] {
        SingleRootStored(P, s.headers, genesis);
      }
    case Single(header) =>
      InsertHeaderRebuilds(P, s, header);
    case Batch(headers) =>
      InsertHeadersRebuilds(P, s, headers);
  }

  lemma ApplyKeepsValid(P: Params, s: Store, op: Op, genesis: BlockHeader)
    requires ValidFrom(P, s, genesis) && GenesisFixed(P, op, genesis)
    ensures var s' := Apply(P, s, op); ValidFrom(P, s', genesis) && Grows(s, s')
  {
    ApplyKeepsIndexed(P, s, op, genesis);
  }

  /** Every run of calls, failing ones included, from an empty store. */
  lemma {:induction false} RunsKeepValid(P: Params, ops: seq<Op>, genesis: BlockHeader)
    requires forall op <- ops :: GenesisFixed(P, op, genesis)
    ensures ValidFrom(P, Run(P, EMPTY_STORE, ops), genesis)
    decreases |ops|
  {
    if ops != [] {
      RunsKeepValid(P, ops[..|ops| - 1], genesis);
      ApplyKeepsValid(P, Run(P, EMPTY_STORE, ops[..|ops| - 1]), ops[|ops| - 1], genesis);
    }
  }
}
