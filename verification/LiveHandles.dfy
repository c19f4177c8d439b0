/**
 * Insertion into the shared database as its connections really perform it: a call accepts its rows, commits them in one
 * transaction, looks at the best header in a read of its own, and promotes in a second transaction without looking
 * again. Another connection may commit between any two of these.
 */
module LiveHandles {
  import opened Wrappers
  import opened Pow
  import opened ChainModel
  import opened ChainInvariant

  /**
   * A call under way: the rows it accepted, whether they are committed, and the best header it looked at. Inserting a
   * genesis looks at nothing and promotes as if there were no best.
   */
  datatype Handle = Handle(xs: seq<StoredHeader>, stored: bool, looked: Option<Option<StoredHeader>>)

  function Accept(P: Params, s: Store, op: Op): Option<Handle> {
    match op
    case Genesis(header) =>
      if (P.policy.Mainnet? && header != MAINNET_GENESIS) || WorkForBits(header.bits).Err? then None
      else Some(Handle([StoredHeader(P.hash(header), header, 0, WorkForBits(header.bits).value)], false, Some(None)))
    case Single(header) =>
      var x := Admit(P, s.headers, header);
      if x.Err? then None else Some(Handle([x.value], false, None))
    case Batch(headers) =>
      var xs := AcceptAll(P, s.headers, headers);
      if xs.Err? || xs.value == [] then None else Some(Handle(xs.value, false, None))
  }

  // ---- Committing the rows ----

  /** All hashes are new and different: the rows can be committed. */
  ghost predicate AllNew(H: HeaderTable, xs: seq<StoredHeader>) {
    (forall x <- xs :: x.hash !in H) && forall i, j | 0 <= i < j < |xs| :: xs[i].hash != xs[j].hash
  }

  ghost predicate OverlayOf(H: HeaderTable, xs: seq<StoredHeader>, H': HeaderTable) {
    && Extends(H, H')
    && (forall x <- xs :: x.hash in H' && H'[x.hash] == x)
    && forall h <- H' | h !in H :: H'[h] in xs && H'[h].hash == h
  }

  lemma AllNewStep(H: HeaderTable, xs: seq<StoredHeader>)
    requires xs != [] && xs[0].hash !in H
    ensures AllNew(H[xs[0].hash := xs[0]], xs[1..]) <==> AllNew(H, xs)
  {
    var rest := xs[1..];
    assert forall j | 1 <= j < |xs| :: xs[j] == rest[j - 1] && xs[j] in rest;
    assert forall x :: x in xs <==> x == xs[0] || x in rest;
  }

  lemma {:induction false} PutAllIff(s: Store, xs: seq<StoredHeader>)
    ensures PutAll(s, xs).result.Ok? <==> AllNew(s.headers, xs)
    ensures AllNew(s.headers, xs) ==>
              && PutAll(s, xs).store == s.(headers := PutAll(s, xs).store.headers)
              && OverlayOf(s.headers, xs, PutAll(s, xs).store.headers)
    decreases |xs|
  {
    if xs != [] && xs[0].hash !in s.headers {
      var s1 := Put(s, xs[0]).value;
      PutAllIff(s1, xs[1..]);
      assert forall x :: x in xs <==> x == xs[0] || x in xs[1..];
      AllNewStep(s.headers, xs);
    } else if xs != [] {
      assert xs[0] in xs;
    }
  }

  /** Rows that carry on from the table or from each other. */
  ghost predicate FollowAll(P: Params, H: HeaderTable, xs: seq<StoredHeader>) {
    forall x <- xs :: FollowsIn(P, H, xs, x)
  }

  ghost predicate FollowsIn(P: Params, H: HeaderTable, xs: seq<StoredHeader>, x: StoredHeader) {
    || Follows(P, H, x)
    || exists y :: y in xs && y.hash == x.header.prevBlock && Follows(P, map[y.hash := y], x)
  }

  lemma RowFollows(P: Params, H: HeaderTable, xs: seq<StoredHeader>, H': HeaderTable, x: StoredHeader)
    requires FollowsIn(P, H, xs, x) && OverlayOf(H, xs, H')
    ensures Follows(P, H', x)
  {
  }

  lemma FollowAllCommits(P: Params, H: HeaderTable, xs: seq<StoredHeader>, H': HeaderTable)
    requires ValidHeaders(P, H) && FollowAll(P, H, xs) && OverlayOf(H, xs, H')
    ensures ValidHeaders(P, H')
  {
    forall h <- H' ensures ValidEntry(P, H', h) {
      if h in H {
        assert ValidEntry(P, H, h);
      } else {
        RowFollows(P, H, xs, H', H'[h]);
      }
    }
  }

  lemma FollowAllStable(P: Params, H: HeaderTable, H': HeaderTable, xs: seq<StoredHeader>)
    requires FollowAll(P, H, xs) && Extends(H, H')
    ensures FollowAll(P, H', xs)
  {
    forall x <- xs ensures FollowsIn(P, H', xs, x) {
      assert FollowsIn(P, H, xs, x);
    }
  }

  lemma AcceptedFollow(P: Params, s: Store, op: Op)
    requires ValidHeaders(P, s.headers) && Accept(P, s, op).Some?
    ensures FollowAll(P, s.headers, Accept(P, s, op).value.xs)
    ensures !op.Genesis? ==> forall x <- Accept(P, s, op).value.xs :: x.height > 0
  {
    var xs := Accept(P, s, op).value.xs;
    match op
    case Genesis(_) =>
    case Single(header) => AdmittedFollows(P, s.headers, header, xs[0]);
    case Batch(headers) =>
      AcceptedAreJoinable(P, s, headers);
      var H := Overlay(s.headers, xs);
      forall x <- xs ensures FollowsIn(P, s.headers, xs, x) {
        assert ValidEntry(P, H, x.hash);
        var p := x.header.prevBlock;
        if p in s.headers {
          assert H[p] == s.headers[p];
        } else {
          assert H[p] in xs && ValidEntry(P, H, p);
        }
      }
  }

  // ---- Promotion ----

  /** The call promotes one of its rows. */
  predicate Promotes(looked: Option<StoredHeader>, xs: seq<StoredHeader>)
    requires xs != []
  {
    looked.None? || xs[LastMax(xs)].chainwork > looked.value.chainwork
  }

  /** It does so tip by tip: its rows carry on from the best it looked at. */
  predicate Extending(looked: Option<StoredHeader>, xs: seq<StoredHeader>)
    requires xs != []
  {
    && Promotes(looked, xs)
    && looked.Some? && xs[0].header.prevBlock == looked.value.hash && Linked(xs[..LastMax(xs) + 1])
  }

  ghost predicate RowsStored(H: HeaderTable, xs: seq<StoredHeader>) {
    forall x <- xs :: x.hash in H && H[x.hash] == x
  }

  /** The index still is that of the parent of the tips, but for heights the tips overwrite. */
  ghost predicate TipsFit(P: Params, s: Store, tips: seq<StoredHeader>)
    requires Indexed(P, s) && tips != [] && tips[0].height > 0
  {
    && s.best.Some?
    && tips[0].height - 1 <= s.headers[s.best.value].height <= tips[|tips| - 1].height
    && AncestorHash(P, s.headers, s.best.value, tips[0].height - 1) == tips[0].header.prevBlock
  }

  /** Linked stored rows have consecutive heights and are each other's ancestors. */
  lemma {:induction false} TipsAreAncestors(P: Params, H: HeaderTable, tips: seq<StoredHeader>, last: nat, i: nat)
    requires ValidHeaders(P, H) && RowsStored(H, tips) && Linked(tips) && i <= last < |tips|
    requires forall x <- tips :: x.height > 0
    ensures tips[i].height + (last - i) == tips[last].height
    ensures AncestorHash(P, H, tips[last].hash, tips[i].height) == tips[i].hash
    decreases last
  {
    assert ValidEntry(P, H, tips[last].hash);
    if i < last {
      TipsAreAncestors(P, H, tips, last - 1, i);
    }
  }

  /** After writing the tips into an index: what it holds at one height. */
  ghost predicate WrittenAt(before: map<nat, Hash>, tips: seq<StoredHeader>, after: map<nat, Hash>, k: nat)
    requires tips != []
  {
    var low := tips[0].height;
    if low <= k < low + |tips| then k in after && after[k] == tips[k - low].hash
    else (k in after <==> k in before) && (k in before ==> after[k] == before[k])
  }

  ghost predicate Written(before: map<nat, Hash>, tips: seq<StoredHeader>, after: map<nat, Hash>)
    requires tips != []
  {
    forall k: nat {:trigger WrittenAt(before, tips, after, k)} :: WrittenAt(before, tips, after, k)
  }

  ghost predicate Consecutive(tips: seq<StoredHeader>) {
    forall i | 0 <= i < |tips| :: tips[i].height == tips[0].height + i
  }

  lemma {:induction false} PromoteTipsWrites(s: Store, tips: seq<StoredHeader>)
    requires tips != [] && RowsStored(s.headers, tips) && Consecutive(tips)
    ensures var out := PromoteTips(s, tips);
            && out.result == Ok(()) && out.store.headers == s.headers && out.store.best == Some(tips[|tips| - 1].hash)
            && Written(s.canonical, tips, out.store.canonical)
    decreases |tips|
  {
    var s1 := PromoteTip(s, tips[0]).value;
    var out := PromoteTips(s, tips).store;
    if |tips| == 1 {
      assert tips[1..] == [] && PromoteTips(s1, []).store == s1;
      assert out == s1;
    } else {
      var rest := tips[1..];
      assert forall i | 0 <= i < |rest| :: rest[i] == tips[i + 1];
      PromoteTipsWrites(s1, rest);
      forall k: nat ensures WrittenAt(s.canonical, tips, out.canonical, k) {
        assert WrittenAt(s1.canonical, rest, out.canonical, k);
      }
    }
  }

  /** The ancestry of the last tip: the tips themselves, and below them the ancestry of their parent. */
  lemma TipAncestry(P: Params, H: HeaderTable, tips: seq<StoredHeader>, k: nat)
    requires ValidHeaders(P, H) && RowsStored(H, tips) && Linked(tips) && tips != []
    requires forall x <- tips :: x.height > 0
    requires k < tips[0].height + |tips|
    ensures tips[|tips| - 1].height == tips[0].height + |tips| - 1
    ensures tips[0].header.prevBlock in H && H[tips[0].header.prevBlock].height == tips[0].height - 1
    ensures AncestorHash(P, H, tips[|tips| - 1].hash, k)
         == if k >= tips[0].height then tips[k - tips[0].height].hash
            else AncestorHash(P, H, tips[0].header.prevBlock, k)
  {
    var (last, low) := (|tips| - 1, tips[0].height);
    TipsAreAncestors(P, H, tips, last, 0);
    assert ValidEntry(P, H, tips[0].hash);
    if k >= low {
      TipsAreAncestors(P, H, tips, last, k - low);
      TipsAreAncestors(P, H, tips, k - low, 0);
    } else {
      AncestorOfAncestor(P, H, tips[last].hash, low, k);
    }
  }

  lemma LinkedConsecutive(P: Params, H: HeaderTable, tips: seq<StoredHeader>)
    requires ValidHeaders(P, H) && RowsStored(H, tips) && Linked(tips) && forall x <- tips :: x.height > 0
    ensures Consecutive(tips)
  {
    forall i | 0 <= i < |tips| ensures tips[i].height == tips[0].height + i {
      TipsAreAncestors(P, H, tips, i, 0);
    }
  }

  lemma FittingTips(P: Params, s: Store, tips: seq<StoredHeader>, canonical: map<nat, Hash>)
    requires Indexed(P, s) && RowsStored(s.headers, tips) && Linked(tips) && tips != []
    requires (forall x <- tips :: x.height > 0) && TipsFit(P, s, tips) && Written(s.canonical, tips, canonical)
    ensures canonical == Ancestry(P, s.headers, tips[|tips| - 1].hash)
  {
    var (H, low, last) := (s.headers, tips[0].height, tips[|tips| - 1].hash);
    TipAncestry(P, H, tips, low);
    var ancestry := Ancestry(P, H, last);
    forall k: nat ensures k in canonical <==> k in ancestry {
      assert WrittenAt(s.canonical, tips, canonical, k);
    }
    forall k: nat | k in canonical ensures canonical[k] == ancestry[k] {
      assert WrittenAt(s.canonical, tips, canonical, k);
      TipAncestry(P, H, tips, k);
      if k < low {
        AncestorOfAncestor(P, H, s.best.value, low - 1, k);
      }
    }
  }

  lemma WrittenTipsFit(P: Params, s: Store, tips: seq<StoredHeader>, canonical: map<nat, Hash>)
    requires Indexed(P, s) && RowsStored(s.headers, tips) && Linked(tips) && tips != []
    requires (forall x <- tips :: x.height > 0) && Written(s.canonical, tips, canonical)
    requires canonical == Ancestry(P, s.headers, tips[|tips| - 1].hash)
    ensures TipsFit(P, s, tips)
  {
    var low := tips[0].height;
    TipAncestry(P, s.headers, tips, low - 1);
    assert WrittenAt(s.canonical, tips, canonical, low - 1);
    assert low - 1 in s.canonical;
    var top := s.headers[s.best.value].height;
    assert WrittenAt(s.canonical, tips, canonical, top);
  }

  /** Promoting tips over a best that may have moved on leaves a proper index exactly when the tips fit. */
  lemma LateTipsIff(P: Params, s: Store, tips: seq<StoredHeader>)
    requires Indexed(P, s) && RowsStored(s.headers, tips) && Linked(tips) && tips != []
    requires forall x <- tips :: x.height > 0
    ensures PromoteTips(s, tips).result == Ok(()) && PromoteTips(s, tips).store.headers == s.headers
    ensures PromoteTips(s, tips).store.best == Some(tips[|tips| - 1].hash)
    ensures Indexed(P, PromoteTips(s, tips).store) <==> TipsFit(P, s, tips)
  {
    LinkedConsecutive(P, s.headers, tips);
    PromoteTipsWrites(s, tips);
    var out := PromoteTips(s, tips).store;
    if TipsFit(P, s, tips) {
      FittingTips(P, s, tips, out.canonical);
    }
    if Indexed(P, out) {
      WrittenTipsFit(P, s, tips, out.canonical);
    }
  }

  /** When a promotion decided on an earlier look leaves a proper index, and when it does not lower best chainwork. */
  lemma LatePromotionIff(P: Params, s: Store, looked: Option<StoredHeader>, xs: seq<StoredHeader>)
    requires Indexed(P, s) && xs != [] && RowsStored(s.headers, xs)
    requires looked.Some? ==> forall x <- xs :: x.height > 0
    ensures var out := PromoteBatch(s, looked, xs);
            && out.result.Ok? && out.store.headers == s.headers
            && out.store.best == (if Promotes(looked, xs) then Some(xs[LastMax(xs)].hash) else s.best)
            && (Indexed(P, out.store) <==> !Extending(looked, xs) || TipsFit(P, s, xs[..LastMax(xs) + 1]))
            && (BestWork(s) <= BestWork(out.store) <==>
                !Promotes(looked, xs) || BestWork(s) <= xs[LastMax(xs)].chainwork)
  {
    PromotionPlan(s, looked, xs);
    var k := LastMax(xs);
    if Extending(looked, xs) {
      assert forall x <- xs[..k + 1] :: x in xs;
      LateTipsIff(P, s, xs[..k + 1]);
    } else if Promotes(looked, xs) {
      RebuildsBest(P, s, xs[k]);
    }
  }

  lemma PromotionPlan(s: Store, looked: Option<StoredHeader>, xs: seq<StoredHeader>)
    requires xs != []
    ensures PromoteBatch(s, looked, xs)
         == if !Promotes(looked, xs) then Outcome(s, Ok(()))
            else if Extending(looked, xs) then PromoteTips(s, xs[..LastMax(xs) + 1])
            else Finish(s, PromoteBest(s, xs[LastMax(xs)].hash), ())
  {
  }

  lemma RebuildsBest(P: Params, s: Store, x: StoredHeader)
    requires Indexed(P, s) && x.hash in s.headers && s.headers[x.hash] == x
    ensures var out := Finish(s, PromoteBest(s, x.hash), ());
            && out.result.Ok? && out.store.headers == s.headers
            && Indexed(P, out.store) && out.store.best == Some(x.hash)
  {
    PromoteBestRebuilds(P, s, x.hash);
  }

  /**
   * What decides whether a promotion may still go ahead: it does not promote after all, or what it promotes is best
   * already or heavier than the best, and fits the index if it is promoted tip by tip.
   */
  ghost predicate PromotionFits(P: Params, s: Store, looked: Option<StoredHeader>, xs: seq<StoredHeader>)
    requires Indexed(P, s) && xs != [] && (looked.Some? ==> forall x <- xs :: x.height > 0)
  {
    var x := xs[LastMax(xs)];
    Promotes(looked, xs) ==>
      && (s.best == Some(x.hash) || BestWork(s) < x.chainwork)
      && (Extending(looked, xs) ==> TipsFit(P, s, xs[..LastMax(xs) + 1]))
  }

  /** A promotion keeps the index proper and the store growing exactly when it fits. */
  lemma PromotionFitsIff(P: Params, s: Store, looked: Option<StoredHeader>, xs: seq<StoredHeader>)
    requires Indexed(P, s) && xs != [] && RowsStored(s.headers, xs)
    requires looked.Some? ==> forall x <- xs :: x.height > 0
    ensures var out := PromoteBatch(s, looked, xs).store;
            && out.headers == s.headers
            && (Indexed(P, out) && Grows(s, out) <==> PromotionFits(P, s, looked, xs))
            && BestWork(out) == if Promotes(looked, xs) then xs[LastMax(xs)].chainwork else BestWork(s)
  {
    LatePromotionIff(P, s, looked, xs);
  }

  /** If the best is still the one looked at, the promotion does what an undivided insertion does. */
  lemma FreshPromotion(P: Params, s: Store, looked: Option<StoredHeader>, xs: seq<StoredHeader>)
    requires Indexed(P, s) && xs != [] && RowsStored(s.headers, xs) && BestHeader(s) == Ok(looked)
    requires looked.Some? ==> forall x <- xs :: x.height > 0
    ensures var out := PromoteBatch(s, looked, xs);
            && out == Outcome(Rebuilt(P, s.headers, BestAfter(s, xs[LastMax(xs)])), Ok(()))
            && Indexed(P, out.store) && Grows(s, out.store)
            && PromotionFits(P, s, looked, xs)
            && forall x <- xs :: x.chainwork <= BestWork(out.store)
  {
    PromoteBatchRebuilds(P, s, s, xs);
    assert ValidEntry(P, s.headers, xs[LastMax(xs)].hash);
    PromotionFitsIff(P, s, looked, xs);
  }
}
