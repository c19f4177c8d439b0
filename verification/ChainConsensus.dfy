/** Which headers are admitted, in terms of the rules and not of the checks, and that every run keeps the rules. */
module ChainConsensus {
  import opened Wrappers
  import opened Pow
  import opened ChainModel
  import opened ChainInvariant

  // ---- Admission ----

  /** The difficulty the chain expects of a child of `parent`; the permissive policy expects nothing. */
  ghost predicate DifficultyMet(P: Params, H: HeaderTable, header: BlockHeader, parent: StoredHeader) {
    P.policy.Mainnet? ==> ExpectedBits(H, parent) == Ok(header.bits)
  }

  /** The hash is no greater than the target the header states. */
  ghost predicate WorkShown(P: Params, header: BlockHeader) {
    CompactToTarget(header.bits).Ok? && P.hash(header) <= CompactToTarget(header.bits).value
  }

  ghost predicate CheckpointMet(P: Params, height: nat, hash: Hash) {
    P.policy.Mainnet? && height in P.checkpoints ==> P.checkpoints[height] == hash
  }

  /** Each check passes exactly when its rule is met. */
  lemma DifficultyRule(P: Params, H: HeaderTable, header: BlockHeader, parent: StoredHeader)
    ensures CheckBits(P, H, header, parent).Ok? <==> DifficultyMet(P, H, header, parent)
  {
  }

  lemma CheckpointRule(P: Params, height: nat, hash: Hash)
    ensures CheckCheckpoint(P, height, hash).Ok? <==> CheckpointMet(P, height, hash)
  {
  }

  /** The proof-of-work check on a target, on no target, and on a mantissa that is shifted out. */
  lemma WorkRule(P: Params, header: BlockHeader)
    ensures CompactToTarget(header.bits).Ok? ==>
            CheckPow(P, header) == if WorkShown(P, header) then Ok(()) else Err(InvalidProofOfWork)
    ensures CompactToTarget(header.bits).Err? && !ShiftedToZero(header.bits) ==>
            CheckPow(P, header) == Err(PowFailure(CompactToTarget(header.bits).error))
    ensures ShiftedToZero(header.bits) ==>
            && CompactToTarget(header.bits) == Err(ZeroTarget)
            && CheckPow(P, header) == if P.hash(header) == 0 then Ok(()) else Err(InvalidProofOfWork)
  {
    PowMatchesTarget(P.hash(header), header.bits);
    CompactTargetIff(header.bits);
  }

  /** A header is admitted exactly when its parent is stored and all rules are met; this is the row it gets. */
  lemma AdmitIff(P: Params, H: HeaderTable, header: BlockHeader, x: StoredHeader)
    ensures Admit(P, H, header) == Ok(x) <==>
            && header.prevBlock in H
            && var parent := H[header.prevBlock];
            && parent.height < U32_MAX
            && DifficultyMet(P, H, header, parent) && WorkShown(P, header)
            && CheckpointMet(P, parent.height + 1, P.hash(header))
            && x.hash == P.hash(header) && x.header == header && x.height == parent.height + 1
            && WorkForBits(header.bits) == Ok(x.chainwork - parent.chainwork)
            && x.chainwork >= parent.chainwork
  {
    PowMatchesTarget(P.hash(header), header.bits);
    assert CompactToTarget(header.bits).Ok? <==> WorkForBits(header.bits).Ok?;
    if header.prevBlock in H {
      var parent := H[header.prevBlock];
      DifficultyRule(P, H, header, parent);
      CheckpointRule(P, parent.height + 1, P.hash(header));
    }
  }

  /** Which error a refused header gets: the first rule it breaks, in this order. */
  lemma RefusalIs(P: Params, H: HeaderTable, header: BlockHeader)
    ensures header.prevBlock !in H ==> Admit(P, H, header) == Err(UnknownParent)
    ensures header.prevBlock in H ==>
              var parent := H[header.prevBlock];
              var expected := ExpectedBits(H, parent);
              && (parent.height == U32_MAX ==> Admit(P, H, header) == Err(InvalidDifficultyWindow))
              && (parent.height < U32_MAX && P.policy.Mainnet? && expected.Err? ==>
                  Admit(P, H, header) == Err(expected.error))
              && (parent.height < U32_MAX && P.policy.Mainnet? && expected.Ok? && expected.value != header.bits ==>
                  Admit(P, H, header) == Err(InvalidDifficultyBits(header.bits, expected.value)))
              && (parent.height < U32_MAX && DifficultyMet(P, H, header, parent) && CompactToTarget(header.bits).Ok? ==>
                  if !WorkShown(P, header) then Admit(P, H, header) == Err(InvalidProofOfWork)
                  else if !CheckpointMet(P, parent.height + 1, P.hash(header)) then
                    Admit(P, H, header)
                    == Err(InvalidCheckpoint(parent.height + 1, P.hash(header), P.checkpoints[parent.height + 1]))
                  else Admit(P, H, header).Ok?)
              && (parent.height < U32_MAX && DifficultyMet(P, H, header, parent) && CompactToTarget(header.bits).Err?
                  && !ShiftedToZero(header.bits) ==>
                  Admit(P, H, header) == Err(PowFailure(CompactToTarget(header.bits).error)))
              && (parent.height < U32_MAX && DifficultyMet(P, H, header, parent) && ShiftedToZero(header.bits) ==>
                  if P.hash(header) != 0 then Admit(P, H, header) == Err(InvalidProofOfWork)
                  else if !CheckpointMet(P, parent.height + 1, P.hash(header)) then
                    Admit(P, H, header)
                    == Err(InvalidCheckpoint(parent.height + 1, P.hash(header), P.checkpoints[parent.height + 1]))
                  else Admit(P, H, header) == Err(PowFailure(ZeroTarget)))
  {
    WorkRule(P, header);
    if header.prevBlock in H {
      CheckpointRule(P, H[header.prevBlock].height + 1, P.hash(header));
    }
  }

  // ---- Stability ----

  lemma PreviousStable(H: HeaderTable, H': HeaderTable, x: StoredHeader)
    requires Extends(H, H') && Previous(H, x).Ok?
    ensures Previous(H', x) == Previous(H, x)
  {
  }

  lemma {:induction false} AncestorWalkStable(H: HeaderTable, H': HeaderTable, x: StoredHeader, height: nat)
    requires Extends(H, H') && Ancestor(H, x, height).Ok?
    ensures Ancestor(H', x, height) == Ancestor(H, x, height)
    decreases x.height
  {
    if height < x.height {
      PreviousStable(H, H', x);
      AncestorWalkStable(H, H', Previous(H, x).value, height);
    }
  }

  lemma SuitableStable(H: HeaderTable, H': HeaderTable, z: StoredHeader)
    requires Extends(H, H') && Suitable(H, z).Ok?
    ensures Suitable(H', z) == Suitable(H, z)
  {
    PreviousStable(H, H', z);
    PreviousStable(H, H', Previous(H, z).value);
  }

  /** What a table expects of a child, every larger table expects. */
  lemma ExpectedBitsStable(H: HeaderTable, H': HeaderTable, parent: StoredHeader)
    requires Extends(H, H') && ExpectedBits(H, parent).Ok?
    ensures ExpectedBits(H', parent) == ExpectedBits(H, parent)
  {
    if parent.height >= BLOCKS_PER_DAY + 2 {
      WindowStable(H, H', parent);
    }
  }

  lemma WindowStable(H: HeaderTable, H': HeaderTable, parent: StoredHeader)
    requires Extends(H, H') && parent.height >= BLOCKS_PER_DAY && RetargetWindow(H, parent).Ok?
    ensures RetargetWindow(H', parent) == RetargetWindow(H, parent)
  {
    var height := parent.height - BLOCKS_PER_DAY;
    SuitableStable(H, H', parent);
    AncestorWalkStable(H, H', parent, height);
    SuitableStable(H, H', Ancestor(H, parent, height).value);
  }

  // ---- The rules over a table ----

  /** The row meets the difficulty its parent's ancestry demands, and the checkpoint at its height. */
  ghost predicate MeetsRules(P: Params, H: HeaderTable, x: StoredHeader) {
    x.height > 0 ==>
      && x.header.prevBlock in H && DifficultyMet(P, H, x.header, H[x.header.prevBlock])
      && CheckpointMet(P, x.height, x.hash)
  }

  ghost predicate Consensus(P: Params, H: HeaderTable) {
    forall h <- H :: MeetsRules(P, H, H[h])
  }

  lemma RulesStable(P: Params, H: HeaderTable, H': HeaderTable, x: StoredHeader)
    requires Extends(H, H') && MeetsRules(P, H, x)
    ensures MeetsRules(P, H', x)
  {
    if x.height > 0 && P.policy.Mainnet? {
      ExpectedBitsStable(H, H', H[x.header.prevBlock]);
    }
  }

  lemma AdmittedMeetsRules(P: Params, H: HeaderTable, header: BlockHeader, x: StoredHeader)
    requires Admit(P, H, header) == Ok(x)
    ensures MeetsRules(P, H, x) && x.height > 0
  {
    AdmitIff(P, H, header, x);
  }

  lemma ConsensusGrows(P: Params, H: HeaderTable, x: StoredHeader)
    requires Consensus(P, H) && MeetsRules(P, H, x) && x.hash !in H
    ensures Consensus(P, H[x.hash := x])
  {
    var H' := H[x.hash := x];
    forall h <- H' ensures MeetsRules(P, H', H'[h]) {
      RulesStable(P, H, H', H'[h]);
    }
  }

  lemma {:induction false} AcceptedConsensus(P: Params, H: HeaderTable, headers: seq<BlockHeader>)
    requires Consensus(P, H) && AcceptAll(P, H, headers).Ok?
    ensures Consensus(P, Overlay(H, AcceptAll(P, H, headers).value))
    decreases |headers|
  {
    if headers == [] {
    } else if P.hash(headers[0]) in H {
      AcceptedConsensus(P, H, headers[1..]);
    } else {
      var x := AdmitBatched(P, H, headers[0]).value;
      AdmitOrdersAgree(P, H, headers[0]);
      AdmittedMeetsRules(P, H, headers[0], x);
      ConsensusGrows(P, H, x);
      var H1 := H[x.hash := x];
      AcceptedConsensus(P, H1, headers[1..]);
      var rest := AcceptAll(P, H1, headers[1..]).value;
      assert ([x] + rest)[1..] == rest;
    }
  }

  // ---- Runs ----

  lemma ApplyKeepsConsensus(P: Params, s: Store, op: Op)
    requires Indexed(P, s) && Consensus(P, s.headers)
    ensures Consensus(P, Apply(P, s, op).headers)
  {
    match op
    case Genesis(header) =>
      InsertGenesisRebuilds(P, s, header);
      var out := InsertGenesis(P, s, header);
      if out.result.Ok? {
        ConsensusGrows(P, s.headers, out.result.value);
      }
    case Single(header) =>
      InsertHeaderRebuilds(P, s, header);
      var x := Admit(P, s.headers, header);
      if x.Ok? && x.value.hash !in s.headers {
        AdmittedMeetsRules(P, s.headers, header, x.value);
        ConsensusGrows(P, s.headers, x.value);
      }
    case Batch(headers) =>
      InsertHeadersRebuilds(P, s, headers);
      if AcceptAll(P, s.headers, headers).Ok? {
        AcceptedConsensus(P, s.headers, headers);
      }
  }

  /** Every run of calls, failing ones included, leaves a valid store whose headers meet difficulty and checkpoints. */
  lemma {:induction false} RunsKeepConsensus(P: Params, ops: seq<Op>, genesis: BlockHeader)
    requires forall op <- ops :: GenesisFixed(P, op, genesis)
    ensures ValidFrom(P, Run(P, EMPTY_STORE, ops), genesis) && Consensus(P, Run(P, EMPTY_STORE, ops).headers)
    decreases |ops|
  {
    if ops != [] {
      RunsKeepConsensus(P, ops[..|ops| - 1], genesis);
      RunsKeepValid(P, ops, genesis);
      ApplyKeepsConsensus(P, Run(P, EMPTY_STORE, ops[..|ops| - 1]), ops[|ops| - 1]);
    }
  }
}
