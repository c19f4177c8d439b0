/**
 * Header storage and admission rules as functions over the stored tables.
 *
 * Every lookup takes one map of stored headers. During a batch that map is the stored table
 * overlaid with the pending headers of the batch, which is the order in which the two are consulted.
 */
module ChainModel {
  import opened Wrappers
  import opened Pow

  type Hash = x: nat | x < TWO_256

  const ZERO_HASH: Hash := 0

  datatype BlockHeader = BlockHeader(
    nonce: U32,
    time: U64,
    prevBlock: Hash,
    treeRoot: Hash,
    extraNonce: nat,
    reservedRoot: Hash,
    witnessRoot: Hash,
    merkleRoot: Hash,
    version: U32,
    bits: U32,
    mask: Hash)

  datatype StoredHeader = StoredHeader(hash: Hash, header: BlockHeader, height: U32, chainwork: nat)

  datatype DifficultyPolicy = Mainnet | Permissive

  datatype ChainError =
    | InvalidGenesisHeader
    | UnknownParent
    | DuplicateHeader
    | MissingBestHeader
    | InvalidDifficultyBits(actual: nat, expected: nat)
    | InvalidDifficultyWindow
    | InvalidProofOfWork
    | InvalidCheckpoint(height: nat, got: Hash, want: Hash)
    | PowFailure(cause: PowError)
    | Storage

  /** What a chain is run with: its policy, the header hash and the checkpoint table. */
  datatype Params = Params(policy: DifficultyPolicy, hash: BlockHeader -> Hash, checkpoints: map<nat, Hash>)

  type HeaderTable = map<Hash, StoredHeader>

  datatype Store = Store(headers: HeaderTable, canonical: map<nat, Hash>, best: Option<Hash>)

  const EMPTY_STORE := Store(map[], map[], None)

  const MAINNET_POW_BITS: U32 := 0x1c00ffff
  const TARGET_SPACING: nat := 600
  const BLOCKS_PER_DAY: nat := 144
  const MIN_ACTUAL_TIMESPAN: nat := 36 * TARGET_SPACING
  const MAX_ACTUAL_TIMESPAN: nat := 576 * TARGET_SPACING

  const MAINNET_GENESIS := BlockHeader(
    0, 1_580_745_078, ZERO_HASH, ZERO_HASH, 0, ZERO_HASH,
    0x1a2c60b9439206938f8d7823782abdb8b211a57431e9c9b6a6365d8d42893351,
    0x8e4c9756fef2ad10375f360e0560fcc7587eb5223ddf8cd7c7e06e60a1140b15,
    0, 0x1c00ffff, ZERO_HASH)

  function LiftPow<T>(r: Result<T, PowError>): Result<T, ChainError> {
    match r
    case Ok(v) => Ok(v)
    case Err(e) => Err(PowFailure(e))
  }

  // ---- Ancestor walks ----

  function Previous(H: HeaderTable, x: StoredHeader): (r: Result<StoredHeader, ChainError>)
    ensures r.Ok? ==> r.value.height + 1 == x.height
  {
    if x.header.prevBlock !in H then Err(UnknownParent)
    else if H[x.header.prevBlock].height + 1 != x.height then Err(InvalidDifficultyWindow)
    else Ok(H[x.header.prevBlock])
  }

  function Ancestor(H: HeaderTable, x: StoredHeader, height: nat): Result<StoredHeader, ChainError>
    decreases x.height
  {
    if height > x.height then Err(InvalidDifficultyWindow)
    else if height == x.height then Ok(x)
    else
      var previous :- Previous(H, x);
      Ancestor(H, previous, height)
  }

  /** The path from the root of `x` down to `x` itself. */
  function PathTo(H: HeaderTable, x: StoredHeader): Result<seq<StoredHeader>, ChainError>
    decreases x.height
  {
    if x.height == 0 then Ok([x])
    else
      var previous :- Previous(H, x);
      var path :- PathTo(H, previous);
      Ok(path + [x])
  }

  function ChainTo(H: HeaderTable, hash: Hash): Result<seq<StoredHeader>, ChainError> {
    if hash !in H then Err(MissingBestHeader) else PathTo(H, H[hash])
  }

  // ---- Retargeting ----

  /** Stable three-element sort by time, middle element. */
  function MiddleByTime(x: StoredHeader, y: StoredHeader, z: StoredHeader): StoredHeader {
    var (a, b) := if y.header.time < x.header.time then (y, x) else (x, y);
    if z.header.time < a.header.time then a
    else if z.header.time < b.header.time then z
    else b
  }

  function Suitable(H: HeaderTable, z: StoredHeader): Result<StoredHeader, ChainError> {
    var y :- Previous(H, z);
    var x :- Previous(H, y);
    Ok(MiddleByTime(x, y, z))
  }

  function Timespan(first: StoredHeader, last: StoredHeader): (t: nat)
    ensures MIN_ACTUAL_TIMESPAN <= t <= MAX_ACTUAL_TIMESPAN
  {
    var raw := if last.header.time < first.header.time then 0 else last.header.time - first.header.time;
    if raw < MIN_ACTUAL_TIMESPAN then MIN_ACTUAL_TIMESPAN
    else if raw > MAX_ACTUAL_TIMESPAN then MAX_ACTUAL_TIMESPAN
    else raw
  }

  function WorkEstimate(first: StoredHeader, last: StoredHeader): Result<nat, ChainError> {
    if last.chainwork < first.chainwork then Err(InvalidDifficultyWindow)
    else Ok(Quotient((last.chainwork - first.chainwork) * TARGET_SPACING, Timespan(first, last)))
  }

  function RetargetBits(first: StoredHeader, last: StoredHeader): Result<nat, ChainError> {
    if last.height <= first.height then Err(InvalidDifficultyWindow)
    else
      var work :- WorkEstimate(first, last);
      if work == 0 then Ok(MAINNET_POW_BITS)
      else
        var target :- LiftPow(TargetForWork(work));
        var limit :- LiftPow(CompactToTarget(MAINNET_POW_BITS));
        if target > limit then Ok(MAINNET_POW_BITS) else Ok(TargetToCompact(target))
  }

  /** The two blocks the retarget compares: the suitable blocks of the parent and of its day-old ancestor. */
  function RetargetWindow(H: HeaderTable, parent: StoredHeader): Result<(StoredHeader, StoredHeader), ChainError>
    requires parent.height >= BLOCKS_PER_DAY
  {
    var last :- Suitable(H, parent);
    var ancestor :- Ancestor(H, parent, parent.height - BLOCKS_PER_DAY);
    var first :- Suitable(H, ancestor);
    Ok((first, last))
  }

  function ExpectedBits(H: HeaderTable, parent: StoredHeader): Result<nat, ChainError> {
    if parent.height < BLOCKS_PER_DAY + 2 then Ok(MAINNET_POW_BITS)
    else
      var window :- RetargetWindow(H, parent);
      RetargetBits(window.0, window.1)
  }

  // ---- Admission of one header ----

  function CheckBits(P: Params, H: HeaderTable, header: BlockHeader, parent: StoredHeader): Result<(), ChainError> {
    if P.policy.Permissive? then Ok(())
    else
      var expected :- ExpectedBits(H, parent);
      if header.bits != expected then Err(InvalidDifficultyBits(header.bits, expected)) else Ok(())
  }

  function CheckPow(P: Params, header: BlockHeader): Result<(), ChainError> {
    var satisfied :- LiftPow(VerifyPow(P.hash(header), header.bits));
    if satisfied then Ok(()) else Err(InvalidProofOfWork)
  }

  function ChildHeight(parent: StoredHeader): Result<U32, ChainError> {
    if parent.height == U32_MAX then Err(InvalidDifficultyWindow) else Ok(parent.height + 1)
  }

  function CheckCheckpoint(P: Params, height: nat, hash: Hash): Result<(), ChainError> {
    if P.policy.Permissive? || height !in P.checkpoints || P.checkpoints[height] == hash then Ok(())
    else Err(InvalidCheckpoint(height, hash, P.checkpoints[height]))
  }

  function Extend(P: Params, header: BlockHeader, height: U32, parent: StoredHeader, work: nat): StoredHeader {
    StoredHeader(P.hash(header), header, height, parent.chainwork + work)
  }

  /** The checks of a single insertion, in its order. */
  function Admit(P: Params, H: HeaderTable, header: BlockHeader): Result<StoredHeader, ChainError> {
    if header.prevBlock !in H then Err(UnknownParent)
    else
      var parent := H[header.prevBlock];
      var height :- ChildHeight(parent);
      var _ :- CheckBits(P, H, header, parent);
      var _ :- CheckPow(P, header);
      var _ :- CheckCheckpoint(P, height, P.hash(header));
      var work :- LiftPow(WorkForBits(header.bits));
      Ok(Extend(P, header, height, parent, work))
  }

  /** The checks of a batch insertion, which tests the height only after difficulty and proof of work. */
  function AdmitBatched(P: Params, H: HeaderTable, header: BlockHeader): Result<StoredHeader, ChainError> {
    if header.prevBlock !in H then Err(UnknownParent)
    else
      var parent := H[header.prevBlock];
      var _ :- CheckBits(P, H, header, parent);
      var _ :- CheckPow(P, header);
      var height :- ChildHeight(parent);
      var _ :- CheckCheckpoint(P, height, P.hash(header));
      var work :- LiftPow(WorkForBits(header.bits));
      Ok(Extend(P, header, height, parent, work))
  }

  // ---- Store operations ----

  function Put(s: Store, x: StoredHeader): Result<Store, ChainError> {
    if x.hash in s.headers then Err(DuplicateHeader) else Ok(s.(headers := s.headers[x.hash := x]))
  }

  function PromoteTip(s: Store, x: StoredHeader): Result<Store, ChainError> {
    if x.hash !in s.headers then Err(MissingBestHeader)
    else Ok(s.(canonical := s.canonical[x.height := x.hash], best := Some(x.hash)))
  }

  function IndexOf(xs: seq<StoredHeader>): map<nat, Hash> {
    if xs == [] then map[] else IndexOf(xs[..|xs| - 1])[xs[|xs| - 1].height := xs[|xs| - 1].hash]
  }

  function ReplaceCanonical(s: Store, xs: seq<StoredHeader>): Result<Store, ChainError> {
    if xs == [] || (exists x <- xs :: x.hash !in s.headers) then Err(MissingBestHeader)
    else Ok(s.(canonical := IndexOf(xs), best := Some(xs[|xs| - 1].hash)))
  }

  /** Full rebuild of the canonical index. */
  function PromoteBest(s: Store, hash: Hash): Result<Store, ChainError> {
    var path :- ChainTo(s.headers, hash);
    ReplaceCanonical(s, path)
  }

  function BestHeader(s: Store): Result<Option<StoredHeader>, ChainError> {
    match s.best
    case None => Ok(None)
    case Some(h) => if h in s.headers then Ok(Some(s.headers[h])) else Err(MissingBestHeader)
  }

  /** Outcome of a mutating call: the store it leaves behind and what it returns. */
  datatype Outcome<T> = Outcome(store: Store, result: Result<T, ChainError>)

  /** A later step of a call: on failure the store written so far stays as it is. */
  function Finish<T>(before: Store, step: Result<Store, ChainError>, value: T): Outcome<T> {
    match step
    case Ok(after) => Outcome(after, Ok(value))
    case Err(e) => Outcome(before, Err(e))
  }

  function InsertGenesis(P: Params, s: Store, header: BlockHeader): Outcome<StoredHeader> {
    if P.policy.Mainnet? && header != MAINNET_GENESIS then Outcome(s, Err(InvalidGenesisHeader))
    else
      match LiftPow(WorkForBits(header.bits))
      case Err(e) => Outcome(s, Err(e))
      case Ok(work) =>
        var x := StoredHeader(P.hash(header), header, 0, work);
        match Put(s, x)
        case Err(e) => Outcome(s, Err(e))
        case Ok(s1) => Finish(s1, PromoteBest(s1, x.hash), x)
  }

  /** Stores an admitted header and promotes it when it is heavier than the best. */
  function Join(s: Store, x: StoredHeader): Outcome<StoredHeader> {
    match Put(s, x)
    case Err(e) => Outcome(s, Err(e))
    case Ok(s1) =>
      match BestHeader(s1)
      case Err(e) => Outcome(s1, Err(e))
      case Ok(best) =>
        if best.Some? && x.chainwork <= best.value.chainwork then Outcome(s1, Ok(x))
        else if best.Some? && x.header.prevBlock == best.value.hash then Finish(s1, PromoteTip(s1, x), x)
        else Finish(s1, PromoteBest(s1, x.hash), x)
  }

  function InsertHeader(P: Params, s: Store, header: BlockHeader): Outcome<StoredHeader> {
    match Admit(P, s.headers, header)
    case Err(e) => Outcome(s, Err(e))
    case Ok(x) => Join(s, x)
  }

  /** The validation loop of a batch: known and repeated hashes are skipped, the first failure aborts. */
  function AcceptAll(P: Params, H: HeaderTable, headers: seq<BlockHeader>): Result<seq<StoredHeader>, ChainError>
    decreases |headers|
  {
    if headers == [] then Ok([])
    else if P.hash(headers[0]) in H then AcceptAll(P, H, headers[1..])
    else
      var x :- AdmitBatched(P, H, headers[0]);
      var rest :- AcceptAll(P, H[x.hash := x], headers[1..]);
      Ok([x] + rest)
  }

  /** Index of the last header of maximal chainwork. */
  function LastMax(xs: seq<StoredHeader>): (k: nat)
    requires xs != []
    ensures k < |xs|
    ensures forall i :: 0 <= i < |xs| ==> xs[i].chainwork <= xs[k].chainwork
    ensures forall i :: k < i < |xs| ==> xs[i].chainwork < xs[k].chainwork
  {
    if |xs| == 1 then 0
    else
      var k := LastMax(xs[..|xs| - 1]);
      if xs[|xs| - 1].chainwork >= xs[k].chainwork then |xs| - 1 else k
  }

  /** On failure the headers stored before the offending one remain, as the default trait loop leaves them. */
  function PutAll(s: Store, xs: seq<StoredHeader>): Outcome<()>
    decreases |xs|
  {
    if xs == [] then Outcome(s, Ok(()))
    else
      match Put(s, xs[0])
      case Err(e) => Outcome(s, Err(e))
      case Ok(s1) => PutAll(s1, xs[1..])
  }

  function PromoteTips(s: Store, xs: seq<StoredHeader>): Outcome<()>
    decreases |xs|
  {
    if xs == [] then Outcome(s, Ok(()))
    else
      match PromoteTip(s, xs[0])
      case Err(e) => Outcome(s, Err(e))
      case Ok(s1) => PromoteTips(s1, xs[1..])
  }

  predicate Linked(xs: seq<StoredHeader>) {
    forall i :: 0 < i < |xs| ==> xs[i].header.prevBlock == xs[i - 1].hash
  }

  /** Promotes the heaviest accepted header, tip by tip when the batch carries on from the best. */
  function PromoteBatch(s: Store, best: Option<StoredHeader>, accepted: seq<StoredHeader>): Outcome<()>
    requires accepted != []
  {
    var k := LastMax(accepted);
    if best.Some? && accepted[k].chainwork <= best.value.chainwork then Outcome(s, Ok(()))
    else if best.Some? && accepted[0].header.prevBlock == best.value.hash && Linked(accepted[..k + 1])
    then PromoteTips(s, accepted[..k + 1])
    else Finish(s, PromoteBest(s, accepted[k].hash), ())
  }

  function Returning<T, U>(out: Outcome<T>, value: U): Outcome<U> {
    Outcome(out.store, match out.result case Ok(_) => Ok(value) case Err(e) => Err(e))
  }

  function JoinAll(s: Store, accepted: seq<StoredHeader>): Outcome<seq<StoredHeader>> {
    if accepted == [] then Outcome(s, Ok([]))
    else
      match BestHeader(s)
      case Err(e) => Outcome(s, Err(e))
      case Ok(best) =>
        var stored := PutAll(s, accepted);
        match stored.result
        case Err(e) => Outcome(stored.store, Err(e))
        case Ok(_) => Returning(PromoteBatch(stored.store, best, accepted), accepted)
  }

  function InsertHeaders(P: Params, s: Store, headers: seq<BlockHeader>): Outcome<seq<StoredHeader>> {
    match AcceptAll(P, s.headers, headers)
    case Err(e) => Outcome(s, Err(e))
    case Ok(accepted) => JoinAll(s, accepted)
  }

  datatype Op = Genesis(header: BlockHeader) | Single(header: BlockHeader) | Batch(headers: seq<BlockHeader>)

  function Apply(P: Params, s: Store, op: Op): Store {
    match op
    case Genesis(header) => InsertGenesis(P, s, header).store
    case Single(header) => InsertHeader(P, s, header).store
    case Batch(headers) => InsertHeaders(P, s, headers).store
  }

  /** The store after a sequence of calls, whatever each of them returned. */
  function Run(P: Params, s: Store, ops: seq<Op>): Store
    decreases |ops|
  {
    if ops == [] then s else Apply(P, Run(P, s, ops[..|ops| - 1]), ops[|ops| - 1])
  }
}
