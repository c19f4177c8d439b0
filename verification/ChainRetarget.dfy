/** The retarget window of a valid store and the bounds of the work estimate. */
module ChainRetarget {
  import opened Wrappers
  import opened Pow
  import opened CompactTargets
  import opened ChainModel
  import opened ChainInvariant

  /** The ancestor of `h` at a height, as a stored header. */
  ghost function At(P: Params, H: HeaderTable, h: Hash, height: nat): StoredHeader
    requires ValidHeaders(P, H) && h in H && height <= H[h].height
  {
    H[AncestorHash(P, H, h, height)]
  }

  lemma {:induction false} AncestorFindsAt(P: Params, H: HeaderTable, h: Hash, height: nat)
    requires ValidHeaders(P, H) && h in H && height <= H[h].height
    ensures Ancestor(H, H[h], height) == Ok(At(P, H, h, height))
    decreases H[h].height
  {
    assert ValidEntry(P, H, h);
    if height < H[h].height {
      AncestorFindsAt(P, H, H[h].header.prevBlock, height);
    }
  }

  lemma {:induction false} PreviousOfAt(P: Params, H: HeaderTable, h: Hash, height: nat)
    requires ValidHeaders(P, H) && h in H && 0 < height <= H[h].height
    ensures Previous(H, At(P, H, h, height)) == Ok(At(P, H, h, height - 1))
    ensures At(P, H, h, height - 1).chainwork < At(P, H, h, height).chainwork
    decreases H[h].height
  {
    assert ValidEntry(P, H, h);
    if height < H[h].height {
      PreviousOfAt(P, H, H[h].header.prevBlock, height);
    } else {
      var p := H[h].header.prevBlock;
      assert AncestorHash(P, H, h, height - 1) == AncestorHash(P, H, p, height - 1) == p;
    }
  }

  lemma {:induction false} WorkRisesAlongAncestry(P: Params, H: HeaderTable, h: Hash, low: nat, high: nat)
    requires ValidHeaders(P, H) && h in H && low <= high <= H[h].height
    ensures At(P, H, h, low).chainwork <= At(P, H, h, high).chainwork
    decreases high
  {
    if low < high {
      PreviousOfAt(P, H, h, high);
      WorkRisesAlongAncestry(P, H, h, low, high - 1);
    }
  }

  // ---- Medians ----

  /** Number of blocks a stable sort by time places before `blocks[j]`. */
  ghost function Rank(blocks: seq<StoredHeader>, j: nat): nat
    requires |blocks| == 3 && j < 3
  {
    (if Precedes(blocks, 0, j) then 1 else 0)
    + (if Precedes(blocks, 1, j) then 1 else 0)
    + (if Precedes(blocks, 2, j) then 1 else 0)
  }

  ghost predicate Precedes(blocks: seq<StoredHeader>, i: nat, j: nat)
    requires i < |blocks| && j < |blocks|
  {
    blocks[i].header.time < blocks[j].header.time || (blocks[i].header.time == blocks[j].header.time && i < j)
  }

  /** `m` is the stable median by time of the three blocks of the ancestry of `h` that end at `top`. */
  ghost predicate MedianEndingAt(P: Params, H: HeaderTable, h: Hash, top: nat, m: StoredHeader)
    requires ValidHeaders(P, H) && h in H && 2 <= top <= H[h].height
  {
    var blocks := [At(P, H, h, top - 2), At(P, H, h, top - 1), At(P, H, h, top)];
    exists j: nat :: j < 3 && m == blocks[j] && Rank(blocks, j) == 1
  }

  lemma MiddleIsMedian(x: StoredHeader, y: StoredHeader, z: StoredHeader)
    ensures var blocks := [x, y, z];
            exists j: nat :: j < 3 && MiddleByTime(x, y, z) == blocks[j] && Rank(blocks, j) == 1
  {
    var blocks := [x, y, z];
    var j: nat := if Rank(blocks, 0) == 1 then 0 else if Rank(blocks, 1) == 1 then 1 else 2;
    assert MiddleByTime(x, y, z) == blocks[j] && Rank(blocks, j) == 1;
  }

  lemma SuitableIsMedian(P: Params, H: HeaderTable, h: Hash, top: nat)
    requires ValidHeaders(P, H) && h in H && 2 <= top <= H[h].height
    ensures var r := Suitable(H, At(P, H, h, top));
            && r.Ok? && MedianEndingAt(P, H, h, top, r.value)
            && top - 2 <= r.value.height <= top
            && r.value == At(P, H, h, r.value.height)
  {
    PreviousOfAt(P, H, h, top);
    PreviousOfAt(P, H, h, top - 1);
    MiddleIsMedian(At(P, H, h, top - 2), At(P, H, h, top - 1), At(P, H, h, top));
  }

  // ---- The window and its estimate ----

  lemma WindowExists(P: Params, H: HeaderTable, h: Hash)
    requires ValidHeaders(P, H) && h in H && H[h].height >= BLOCKS_PER_DAY + 2
    ensures var r := RetargetWindow(H, H[h]);
            && r.Ok?
            && var (first, last) := r.value;
            && MedianEndingAt(P, H, h, H[h].height - BLOCKS_PER_DAY, first)
            && MedianEndingAt(P, H, h, H[h].height, last)
            && 142 <= last.height - first.height <= 146
            && first.chainwork <= last.chainwork
  {
    var top := H[h].height;
    AncestorFindsAt(P, H, h, top - BLOCKS_PER_DAY);
    SuitableIsMedian(P, H, h, top);
    SuitableIsMedian(P, H, h, top - BLOCKS_PER_DAY);
    var last := Suitable(H, H[h]).value;
    var first := Suitable(H, At(P, H, h, top - BLOCKS_PER_DAY)).value;
    WorkRisesAlongAncestry(P, H, h, first.height, last.height);
  }

  lemma ScaledBounds(W: nat, T: nat, D: nat)
    requires MIN_ACTUAL_TIMESPAN <= T <= MAX_ACTUAL_TIMESPAN && W * T <= TARGET_SPACING * D < (W + 1) * T
    ensures 36 * W <= D < 576 * (W + 1)
  {
    Product(W, W, MIN_ACTUAL_TIMESPAN, T);
    Product(W + 1, W + 1, T, MAX_ACTUAL_TIMESPAN);
  }

  /** The time from the first block to the last, held between 21600 and 345600 seconds. */
  ghost function Clamped(first: StoredHeader, last: StoredHeader): nat {
    var elapsed: int := last.header.time as int - first.header.time;
    if elapsed < 21600 then 21600 else if elapsed > 345600 then 345600 else elapsed
  }

  /** The measured timespan is the clamped difference of the two times, in this order. */
  lemma TimespanIs(first: StoredHeader, last: StoredHeader)
    ensures var elapsed: int := last.header.time as int - first.header.time;
            && (elapsed < 21600 ==> Timespan(first, last) == 21600)
            && (elapsed > 345600 ==> Timespan(first, last) == 345600)
            && (21600 <= elapsed <= 345600 ==> Timespan(first, last) == elapsed)
  {
  }

  lemma EstimateBounds(first: StoredHeader, last: StoredHeader)
    requires first.chainwork <= last.chainwork
    ensures var r := WorkEstimate(first, last);
            && r.Ok?
            && var W := r.value;
            var D := last.chainwork - first.chainwork;
            var T := Clamped(first, last);
            && W * T <= 600 * D < (W + 1) * T
            && 36 * W <= D < 576 * (W + 1)
  {
    TimespanIs(first, last);
    var W := WorkEstimate(first, last).value;
    ScaledBounds(W, Timespan(first, last), last.chainwork - first.chainwork);
  }

  // ---- The bits that follow ----

  const LIMIT_BITS: U32 := 0x1c00ffff

  ghost function LimitTarget(): nat {
    0xffff * Pow256(25)
  }

  lemma LimitIs()
    ensures CompactToTarget(LIMIT_BITS) == Ok(LimitTarget())
  {
    LimitReads(28);
  }

  lemma LimitReads(exponent: nat)
    requires exponent == 28
    ensures CompactToTarget(LIMIT_BITS) == Ok(0xffff * Pow256(exponent - 3))
  {
    SmallExponentFits(0xffff, exponent - 3);
    ReadsLarge(exponent, 0xffff, LIMIT_BITS, 0xffff * Pow256(exponent - 3));
  }

  /**
   * What a retarget answers for an estimate W: the limit when W is zero or its target is above the limit, and otherwise
   * the compact form of the target 2^256 / W - 1, which reads back as that target rounded down.
   */
  ghost predicate AnswersEstimate(W: nat, r: Result<nat, ChainError>) {
    if W == 0 then r == Ok(LIMIT_BITS)
    else if W > TWO_256 then r == Err(PowFailure(ZeroTarget))
    else exists target: nat :: (target + 1) * W <= TWO_256 < (target + 2) * W && AnswersTarget(target, r)
  }

  ghost predicate AnswersTarget(target: nat, r: Result<nat, ChainError>) {
    if target > LimitTarget() then r == Ok(LIMIT_BITS)
    else if target == 0 then r == Ok(0)
    else
      && r.Ok? && r.value <= U32_MAX && CompactToTarget(r.value).Ok?
      && exists n: nat :: RoundedDown(target, n, CompactToTarget(r.value).value)
  }

  lemma TargetAnswered(target: nat)
    requires target < TWO_256
    ensures AnswersTarget(target, if target > LimitTarget() then Ok(LIMIT_BITS) else Ok(TargetToCompact(target)))
  {
    if 0 < target <= LimitTarget() {
      var n := CompactRoundsDown(target);
    }
  }

  lemma RetargetBitsIs(first: StoredHeader, last: StoredHeader)
    requires first.height < last.height && first.chainwork <= last.chainwork
    ensures AnswersEstimate(WorkEstimate(first, last).value, RetargetBits(first, last))
  {
    var W := WorkEstimate(first, last).value;
    LimitIs();
    RetargetFrom(first, last, W, LimitTarget());
    if 0 < W {
      EstimateAnswered(W, RetargetBits(first, last), LimitTarget());
    }
  }

  /** From the estimate to the answer, for any limit that the limit bits stand for. */
  lemma RetargetFrom(first: StoredHeader, last: StoredHeader, W: nat, limit: nat)
    requires first.height < last.height && WorkEstimate(first, last) == Ok(W)
    requires CompactToTarget(LIMIT_BITS) == Ok(limit)
    ensures RetargetBits(first, last) ==
            if W == 0 then Ok(LIMIT_BITS)
            else
              match TargetForWork(W)
              case Err(e) => Err(PowFailure(e))
              case Ok(target) => if target > limit then Ok(LIMIT_BITS) else Ok(TargetToCompact(target))
  {
  }

  lemma EstimateAnswered(W: nat, r: Result<nat, ChainError>, limit: nat)
    requires W > 0 && limit == LimitTarget()
    requires r == match TargetForWork(W)
                  case Err(e) => Err(PowFailure(e))
                  case Ok(target) => if target > limit then Ok(LIMIT_BITS) else Ok(TargetToCompact(target))
    ensures AnswersEstimate(W, r)
  {
    var target := TargetForWork(W);
    TargetForWorkIff(W, if target.Ok? then target.value else 0);
    if target.Ok? {
      Product(1, W, target.value + 1, target.value + 1);
      TargetAnswered(target.value);
      assert (target.value + 1) * W <= TWO_256 < (target.value + 2) * W;
    }
  }

  /** Below height 146 the expected bits are the limit; from there on they answer the estimate over the two medians. */
  lemma ExpectedBitsIs(P: Params, H: HeaderTable, h: Hash)
    requires ValidHeaders(P, H) && h in H
    ensures H[h].height < 146 ==> ExpectedBits(H, H[h]) == Ok(LIMIT_BITS)
    ensures H[h].height >= 146 ==>
              exists first, last ::
                && MedianEndingAt(P, H, h, H[h].height - 144, first) && MedianEndingAt(P, H, h, H[h].height, last)
                && WorkEstimate(first, last).Ok?
                && AnswersEstimate(WorkEstimate(first, last).value, ExpectedBits(H, H[h]))
  {
    if H[h].height >= 146 {
      WindowExists(P, H, h);
      var (first, last) := RetargetWindow(H, H[h]).value;
      EstimateBounds(first, last);
      RetargetBitsIs(first, last);
    }
  }

  /** For every parent a run can reach, the window is there and the estimate is within a factor of the true work. */
  lemma RetargetIsBounded(P: Params, s: Store, h: Hash)
    requires Valid(P, s) && h in s.headers && s.headers[h].height >= BLOCKS_PER_DAY + 2
    ensures var r := RetargetWindow(s.headers, s.headers[h]);
            && r.Ok?
            && var (first, last) := r.value;
            var D := last.chainwork - first.chainwork;
            && 142 <= last.height - first.height <= 146
            && WorkEstimate(first, last).Ok?
            && var W := WorkEstimate(first, last).value;
            && W * Clamped(first, last) <= 600 * D < (W + 1) * Clamped(first, last)
            && 36 * W <= D < 576 * (W + 1)
  {
    WindowExists(P, s.headers, h);
    var (first, last) := RetargetWindow(s.headers, s.headers[h]).value;
    EstimateBounds(first, last);
  }
}
