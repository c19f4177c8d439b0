/** Which error a call on any store gives, reachable or not, and what it leaves behind. */
module ChainErrors {
  import opened Wrappers
  import opened Pow
  import opened ChainModel
  import opened ChainConsensus

  // ---- Walks ----

  /** What is wrong between a row and its parent: the parent is not stored, or stands at another height. */
  ghost predicate BrokenLink(H: HeaderTable, x: StoredHeader, e: ChainError) {
    || (e == UnknownParent && x.header.prevBlock !in H)
    || (e == InvalidDifficultyWindow && x.header.prevBlock in H && H[x.header.prevBlock].height + 1 != x.height)
  }

  /** Walking down from a row to a height meets a broken link, and the first one is of this kind. */
  ghost predicate BreaksAbove(H: HeaderTable, x: StoredHeader, height: nat, e: ChainError)
    decreases x.height
  {
    && x.height > height
    && (|| BrokenLink(H, x, e)
        || (&& x.header.prevBlock in H && H[x.header.prevBlock].height + 1 == x.height
            && BreaksAbove(H, H[x.header.prevBlock], height, e)))
  }

  /** The walk to an ancestor fails exactly at a height above the row or at a broken link, with its error. */
  lemma {:induction false} AncestorErrorIs(H: HeaderTable, x: StoredHeader, height: nat, e: ChainError)
    ensures Ancestor(H, x, height) == Err(e) <==>
            if x.height < height then e == InvalidDifficultyWindow else BreaksAbove(H, x, height, e)
    decreases x.height
  {
    if x.height > height && Previous(H, x).Ok? {
      AncestorErrorIs(H, Previous(H, x).value, height, e);
    }
  }

  /** The walk to the root fails exactly at a broken link, with its error. */
  lemma {:induction false} PathErrorIs(H: HeaderTable, x: StoredHeader, e: ChainError)
    ensures PathTo(H, x) == Err(e) <==> BreaksAbove(H, x, 0, e)
    decreases x.height
  {
    if x.height > 0 && Previous(H, x).Ok? {
      PathErrorIs(H, Previous(H, x).value, e);
    }
  }

  // ---- Insertion ----

  /** A root is refused for its header, for its difficulty or as known, in this order, and nothing changes. */
  lemma GenesisErrors(P: Params, s: Store, header: BlockHeader)
    ensures var forbidden := P.policy.Mainnet? && header != MAINNET_GENESIS;
            var target := CompactToTarget(header.bits);
            && (forbidden ==> InsertGenesis(P, s, header) == Outcome(s, Err(InvalidGenesisHeader)))
            && (!forbidden && target.Err? ==> InsertGenesis(P, s, header) == Outcome(s, Err(PowFailure(target.error))))
            && (!forbidden && target.Ok? && P.hash(header) in s.headers ==>
                InsertGenesis(P, s, header) == Outcome(s, Err(DuplicateHeader)))
  {
  }

  /** A header that meets the rules but is known is refused without change. */
  lemma KnownRefused(P: Params, s: Store, header: BlockHeader)
    requires Admit(P, s.headers, header).Ok? && P.hash(header) in s.headers
    ensures InsertHeader(P, s, header) == Outcome(s, Err(DuplicateHeader))
  {
    AdmitIff(P, s.headers, header, Admit(P, s.headers, header).value);
  }

  /** A batch passes over known headers: one of known headers only changes nothing and succeeds. */
  lemma {:induction false} KnownBatch(P: Params, s: Store, headers: seq<BlockHeader>)
    requires forall header <- headers :: P.hash(header) in s.headers
    ensures InsertHeaders(P, s, headers) == Outcome(s, Ok([]))
    decreases |headers|
  {
    if headers != [] {
      assert forall header <- headers[1..] :: header in headers;
      KnownBatch(P, s, headers[1..]);
      assert AcceptAll(P, s.headers, headers[1..]) == Ok([]);
    }
  }

  /** With a best that is not stored a header is stored and then reported as an error; a batch stores nothing. */
  lemma DanglingBest(P: Params, s: Store, header: BlockHeader, headers: seq<BlockHeader>, b: Hash)
    requires s.best == Some(b) && b !in s.headers
    ensures var x := Admit(P, s.headers, header);
            x.Ok? && x.value.hash !in s.headers && x.value.hash != b ==>
            InsertHeader(P, s, header)
            == Outcome(s.(headers := s.headers[x.value.hash := x.value]), Err(MissingBestHeader))
    ensures var accepted := AcceptAll(P, s.headers, headers);
            accepted.Ok? && accepted.value != [] ==> InsertHeaders(P, s, headers) == Outcome(s, Err(MissingBestHeader))
  {
  }
}
