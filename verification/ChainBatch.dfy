/** Batch insertion compared with inserting the same headers one at a time. */
module ChainBatch {
  import opened Wrappers
  import opened ChainModel
  import opened ChainInvariant

  function Prepend<T>(x: T, r: Result<seq<T>, ChainError>): Result<seq<T>, ChainError> {
    match r
    case Ok(xs) => Ok([x] + xs)
    case Err(e) => Err(e)
  }

  /** Inserts the headers that are not yet known, one call each, stopping at the first failure. */
  function InsertEach(P: Params, s: Store, headers: seq<BlockHeader>): Outcome<seq<StoredHeader>>
    decreases |headers|
  {
    if headers == [] then Outcome(s, Ok([]))
    else if P.hash(headers[0]) in s.headers then InsertEach(P, s, headers[1..])
    else
      var out := InsertHeader(P, s, headers[0]);
      match out.result
      case Err(e) => Outcome(out.store, Err(e))
      case Ok(x) =>
        var rest := InsertEach(P, out.store, headers[1..]);
        Outcome(rest.store, Prepend(x, rest.result))
  }

  /** The pending overlay of the batch is the table the single insertions would have built by then. */
  lemma {:induction false} EachTracksBatch(P: Params, s: Store, headers: seq<BlockHeader>)
    requires Valid(P, s)
    ensures var batch := AcceptAll(P, s.headers, headers);
            var each := InsertEach(P, s, headers);
            && (batch.Ok? <==> each.result.Ok?)
            && Valid(P, each.store)
            && (batch.Ok? ==> each.result == batch && each.store.headers == Overlay(s.headers, batch.value))
    decreases |headers|
  {
    if headers == [] {
    } else if P.hash(headers[0]) in s.headers {
      EachTracksBatch(P, s, headers[1..]);
    } else {
      AdmitOrdersAgree(P, s.headers, headers[0]);
      InsertHeaderRebuilds(P, s, headers[0]);
      var out := InsertHeader(P, s, headers[0]);
      if out.result.Ok? {
        EachTracksBatch(P, out.store, headers[1..]);
        var rest := AcceptAll(P, out.store.headers, headers[1..]);
        assert rest.Ok? ==> ([out.result.value] + rest.value)[1..] == rest.value;
      }
    }
  }

  /**
   * A batch either fails and changes nothing, or stores what the single insertions store. Best hashes may
   * differ between equally heavy tips; best chainworks do not.
   */
  lemma BatchMatchesSingles(P: Params, s: Store, headers: seq<BlockHeader>)
    requires Valid(P, s)
    ensures var batch := InsertHeaders(P, s, headers);
            var each := InsertEach(P, s, headers);
            if each.result.Err? then batch.result.Err? && batch.store == s
            else
              && batch.result == each.result
              && batch.store.headers == each.store.headers
              && BestWork(batch.store) == BestWork(each.store)
  {
    EachTracksBatch(P, s, headers);
    InsertHeadersRebuilds(P, s, headers);
  }

  // ---- Ties ----

  /** Index of the first header of maximal chainwork: the one that single insertions leave best. */
  function FirstMax(xs: seq<StoredHeader>): (k: nat)
    requires xs != []
    ensures k < |xs|
    ensures forall i :: 0 <= i < |xs| ==> xs[i].chainwork <= xs[k].chainwork
    ensures forall i :: 0 <= i < k ==> xs[i].chainwork < xs[k].chainwork
  {
    if |xs| == 1 then 0
    else
      var k := FirstMax(xs[1..]);
      if xs[0].chainwork >= xs[k + 1].chainwork then 0 else k + 1
  }

  /** The headers stand out from the table and from each other. */
  lemma {:induction false} AcceptedDistinct(P: Params, H: HeaderTable, headers: seq<BlockHeader>)
    requires AcceptAll(P, H, headers).Ok?
    ensures var xs := AcceptAll(P, H, headers).value;
            && (forall x <- xs :: x.hash !in H)
            && forall i, j | 0 <= i < j < |xs| :: xs[i].hash != xs[j].hash
    decreases |headers|
  {
    if headers == [] {
    } else if P.hash(headers[0]) in H {
      AcceptedDistinct(P, H, headers[1..]);
    } else {
      var x := AdmitBatched(P, H, headers[0]).value;
      AcceptedDistinct(P, H[x.hash := x], headers[1..]);
    }
  }

  /** The best after single insertions of these headers: the first heaviest, if it is heavier than the best before. */
  function BestAfterEach(s: Store, xs: seq<StoredHeader>): Option<Hash> {
    if xs == [] then s.best else Some(BestAfter(s, xs[FirstMax(xs)]))
  }

  lemma BestAfterEachStep(s: Store, x: StoredHeader, s': Store, rest: seq<StoredHeader>)
    requires x.hash !in s.headers && s'.headers == s.headers[x.hash := x] && s'.best == Some(BestAfter(s, x))
    requires s.best.Some? ==> s.best.value in s.headers
    ensures BestAfterEach(s', rest) == BestAfterEach(s, [x] + rest)
  {
    if rest != [] {
      var xs := [x] + rest;
      assert xs[1..] == rest;
      assert forall i | 0 <= i < |rest| :: xs[i + 1] == rest[i];
    }
  }

  lemma {:induction false} EachLeavesFirst(P: Params, s: Store, headers: seq<BlockHeader>)
    requires Valid(P, s) && InsertEach(P, s, headers).result.Ok?
    ensures InsertEach(P, s, headers).store.best == BestAfterEach(s, InsertEach(P, s, headers).result.value)
    decreases |headers|
  {
    if headers == [] {
    } else if P.hash(headers[0]) in s.headers {
      EachLeavesFirst(P, s, headers[1..]);
    } else {
      InsertHeaderRebuilds(P, s, headers[0]);
      var out := InsertHeader(P, s, headers[0]);
      EachLeavesFirst(P, out.store, headers[1..]);
      var rest := InsertEach(P, out.store, headers[1..]).result.value;
      BestAfterEachStep(s, out.result.value, out.store, rest);
    }
  }

  /** No two of the headers share the greatest chainwork, or none of them is heavier than the best. */
  predicate NoTie(s: Store, xs: seq<StoredHeader>) {
    xs == [] || FirstMax(xs) == LastMax(xs) || (s.best.Some? && xs[LastMax(xs)].chainwork <= BestWork(s))
  }

  /** Batch and single insertions leave the same best hash, and then the same store, exactly when nothing ties. */
  lemma BestAgreesIff(P: Params, s: Store, headers: seq<BlockHeader>)
    requires Valid(P, s) && AcceptAll(P, s.headers, headers).Ok?
    ensures var batch := InsertHeaders(P, s, headers);
            var each := InsertEach(P, s, headers);
            var accepted := AcceptAll(P, s.headers, headers).value;
            && (batch.store.best == each.store.best <==> NoTie(s, accepted))
            && (batch.store == each.store <==> NoTie(s, accepted))
  {
    EachTracksBatch(P, s, headers);
    EachLeavesFirst(P, s, headers);
    InsertHeadersRebuilds(P, s, headers);
    AcceptedDistinct(P, s.headers, headers);
    var xs := AcceptAll(P, s.headers, headers).value;
    if xs != [] {
      var (first, last) := (FirstMax(xs), LastMax(xs));
      assert xs[first].chainwork == xs[last].chainwork;
      assert first != last ==> xs[first].hash != xs[last].hash;
    }
  }
}
