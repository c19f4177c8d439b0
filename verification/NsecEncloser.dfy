/**
 * What a secure NSEC name error says about the names around the query. The validator takes the closest encloser from
 * its caller; the covering link tells whether the caller was right, and whether the query is an empty non-terminal.
 */
module NsecEncloser {
  import opened Wrappers
  import opened Order
  import opened Dns
  import opened DnssecRecords
  import opened DnssecChain
  import opened Nsec

  /** A name exists when it owns records or some name below it does. */
  ghost predicate Exists(owners: seq<DnsName>, name: DnsName) {
    exists owner <- owners :: AtOrBelow(owner, name)
  }

  /** Number of labels two names share, counted from the top. */
  function CommonLabels(a: DnsName, b: DnsName): nat {
    if a == [] || b == [] || a[|a| - 1] != b[|b| - 1] then 0 else 1 + CommonLabels(a[..|a| - 1], b[..|b| - 1])
  }

  lemma {:induction false} CommonLabelsIff(query: DnsName, name: DnsName, n: nat)
    requires n <= |query|
    ensures AtOrBelow(name, SuffixOf(query, n)) <==> n <= CommonLabels(query, name)
    decreases |query|
  {
    if n > 0 && name != [] {
      var (q, m) := (query[..|query| - 1], name[..|name| - 1]);
      CommonLabelsIff(q, m, n - 1);
      assert SuffixOf(query, n) == SuffixOf(q, n - 1) + [query[|query| - 1]];
      if |name| >= n {
        assert name[|name| - n..] == m[|m| - (n - 1)..] + [name[|name| - 1]];
      }
    }
  }

  // ---- Names below a name are an interval ----

  lemma BelowIsConvex(top: DnsName, a: DnsName, b: DnsName, c: DnsName)
    requires AtOrBelow(a, top) && AtOrBelow(c, top)
    requires CompareNames(a, b) != Greater && CompareNames(b, c) != Greater
    ensures AtOrBelow(b, top)
  {
    TopComesFirst(top, a);
    NamesTriple(top, a, b);
    NamesPair(top, b);
    NamesPair(b, top);
    if b != top {
      assert c != top;
      DescendantsFollow(top, b, c);
    }
  }

  lemma TopComesFirst(top: DnsName, name: DnsName)
    requires AtOrBelow(name, top)
    ensures CompareNames(top, name) != Greater
  {
    NamesPair(top, name);
    if name != top {
      DescendantsFollow(top, name, name);
    }
  }

  /** Among the owners before a covered name none comes after the owner of the covering link. */
  lemma OwnerIsNearest(owners: seq<DnsName>, i: nat, query: DnsName, k: nat)
    requires TotalOrder(CompareNames) && Ring(CompareNames, owners) && i < |owners| && k < |owners|
    requires CoversName(owners[i], NextOwner(owners, i), query) && CompareNames(owners[k], query) == Less
    ensures CompareNames(owners[i], query) == Less && CompareNames(owners[k], owners[i]) != Greater
  {
  }

  /** Labels of the closest encloser of a covered query, read off the covering link. */
  function EncloserLabels(owners: seq<DnsName>, i: nat, query: DnsName): nat
    requires i < |owners|
  {
    var (a, b) := (CommonLabels(query, owners[i]), CommonLabels(query, NextOwner(owners, i)));
    if a < b then b else a
  }

  /** The suffixes of a covered query that exist are exactly those within the longer suffix it shares with the link. */
  lemma SuffixExistsIff(owners: seq<DnsName>, i: nat, query: DnsName, n: nat)
    requires Ring(CompareNames, owners) && i < |owners| && n <= |query|
    requires CoversName(owners[i], NextOwner(owners, i), query)
    ensures Exists(owners, SuffixOf(query, n)) <==> n <= EncloserLabels(owners, i, query)
  {
    var (top, next) := (SuffixOf(query, n), NextOwner(owners, i));
    CommonLabelsIff(query, owners[i], n);
    CommonLabelsIff(query, next, n);
    if Exists(owners, top) {
      var k: nat :| k < |owners| && AtOrBelow(owners[k], top);
      NearestBelow(owners, i, query, top, k);
    }
  }

  lemma NearestBelow(owners: seq<DnsName>, i: nat, query: DnsName, top: DnsName, k: nat)
    requires Ring(CompareNames, owners) && i < |owners| && k < |owners|
    requires CoversName(owners[i], NextOwner(owners, i), query) && AtOrBelow(query, top) && AtOrBelow(owners[k], top)
    ensures AtOrBelow(owners[i], top) || AtOrBelow(NextOwner(owners, i), top)
  {
    NamesTotallyOrdered();
    OwnerUncovered(CompareNames, owners, i, k);
    assert owners[k] != query;
    if CompareNames(owners[k], query) == Less {
      OwnerIsNearest(owners, i, query, k);
      BelowIsConvex(top, owners[k], owners[i], query);
    } else {
      NextIsNearest(owners, i, query, k);
      BelowIsConvex(top, query, NextOwner(owners, i), owners[k]);
    }
  }

  // ---- The validator ----

  /** The longest suffix of the query that exists. */
  ghost predicate IsClosest(owners: seq<DnsName>, query: DnsName, encloser: DnsName) {
    && AtOrBelow(query, encloser)
    && forall n: nat | n <= |query| :: Exists(owners, SuffixOf(query, n)) <==> n <= |encloser|
  }

  /** The wildcard that answers for a query that does not exist: the one at its closest encloser. */
  ghost predicate WildcardAnswers(owners: seq<DnsName>, query: DnsName, wildcard: DnsName) {
    wildcard in owners && exists encloser :: IsClosest(owners, query, encloser) && wildcard == [STAR] + encloser
  }

  lemma ClosestUnique(owners: seq<DnsName>, query: DnsName, a: DnsName, b: DnsName)
    requires IsClosest(owners, query, a) && IsClosest(owners, query, b)
    ensures a == b
  {
    assert Exists(owners, SuffixOf(query, |a|)) && Exists(owners, SuffixOf(query, |b|));
  }

  lemma ClosestIff(owners: seq<DnsName>, i: nat, query: DnsName, encloser: DnsName)
    requires Ring(CompareNames, owners) && i < |owners| && CoversName(owners[i], NextOwner(owners, i), query)
    requires AtOrBelow(query, encloser)
    ensures IsClosest(owners, query, encloser) <==> |encloser| == EncloserLabels(owners, i, query)
  {
    var m := EncloserLabels(owners, i, query);
    forall n: nat | n <= |query| ensures Exists(owners, SuffixOf(query, n)) <==> n <= m {
      SuffixExistsIff(owners, i, query, n);
    }
    CommonAtMost(query, owners[i]);
    CommonAtMost(query, NextOwner(owners, i));
    if IsClosest(owners, query, encloser) {
      assert Exists(owners, SuffixOf(query, m)) && Exists(owners, SuffixOf(query, |encloser|));
    }
  }

  lemma {:induction false} CommonAtMost(a: DnsName, b: DnsName)
    ensures CommonLabels(a, b) <= |a|
    decreases |a|
  {
    if a != [] && b != [] {
      CommonAtMost(a[..|a| - 1], b[..|b| - 1]);
    }
  }

  function CoveringInput(input: NameErrorInput): RangeInput {
    RangeInput(input.signer, input.dnskeys, input.coveringNsecs, input.coveringSigs, input.now)
  }

  /**
   * A secure name error comes with a record among those given for the query that is a link of the ring and covers the
   * query, and this record decides what is denied. An owner lies below the query, which then exists without records,
   * exactly when the record's next name does. The caller's encloser is the closest exactly when it is the longer suffix
   * the query shares with the record's owner and next name. If it is, the query does not exist in the zone and no
   * wildcard answers for it.
   */
  lemma NameErrorDecided(env: Env, input: NameErrorInput, owners: seq<DnsName>) returns (i: nat, record: ResourceRecord)
    requires HonestRing(env, input.signer, input.dnskeys, input.now, owners)
    requires ValidateNameError(env, input) == Ok(Secure)
    ensures record in input.coveringNsecs && IsLinkAt(env, owners, i, record)
    ensures ValidateOwnerSet(env, CoveringInput(input), record) == Ok(Secure)
    ensures record in AtOwner(input.coveringNsecs, record, NSEC)
    ensures CoversName(owners[i], NextOwner(owners, i), input.query) && input.query !in owners
    ensures (exists owner <- owners :: IsStrictSubdomain(owner, input.query)) <==>
            IsStrictSubdomain(NextOwner(owners, i), input.query)
    ensures IsClosest(owners, input.query, input.encloser) <==>
            |input.encloser| == EncloserLabels(owners, i, input.query)
    ensures IsClosest(owners, input.query, input.encloser) ==>
              !Exists(owners, input.query) && forall wildcard :: !WildcardAnswers(owners, input.query, wildcard)
  {
    i, record := RangeSound(env, CoveringInput(input), input.query, owners);
    NameErrorSound(env, input, owners);
    EmptyNonTerminalIff(owners, i, input.query);
    ClosestIff(owners, i, input.query, input.encloser);
    if IsClosest(owners, input.query, input.encloser) {
      assert SuffixOf(input.query, |input.query|) == input.query;
      forall wildcard ensures !WildcardAnswers(owners, input.query, wildcard) {
        if WildcardAnswers(owners, input.query, wildcard) {
          var encloser :| IsClosest(owners, input.query, encloser) && wildcard == [STAR] + encloser;
          ClosestUnique(owners, input.query, encloser, input.encloser);
        }
      }
    }
  }

  // ---- Zone cuts ----

  /** No owner lies below a cut. */
  ghost predicate NoOwnerBelowCuts(owners: seq<DnsName>, types: TypeMap) {
    forall cut <- owners, owner <- owners | IsCut(types, cut) :: !IsStrictSubdomain(owner, cut)
  }

  /** The query lies below a cut, so that it is not this zone's to deny. */
  ghost predicate Delegated(owners: seq<DnsName>, types: TypeMap, query: DnsName) {
    exists cut <- owners :: IsCut(types, cut) && IsStrictSubdomain(query, cut)
  }

  /** If a cut lies above a covered query, then it is the owner of the covering link. */
  lemma DelegatedIff(owners: seq<DnsName>, types: TypeMap, i: nat, query: DnsName)
    requires Ring(CompareNames, owners) && i < |owners| && CoversName(owners[i], NextOwner(owners, i), query)
    requires NoOwnerBelowCuts(owners, types)
    ensures Delegated(owners, types, query) <==> IsCut(types, owners[i]) && IsStrictSubdomain(query, owners[i])
  {
    NamesTotallyOrdered();
    if Delegated(owners, types, query) {
      var k: nat :| k < |owners| && IsCut(types, owners[k]) && IsStrictSubdomain(query, owners[k]);
      var cut := owners[k];
      DescendantsFollow(cut, query, query);
      OwnerIsNearest(owners, i, query, k);
      BelowIsConvex(cut, cut, owners[i], query);
      assert owners[i] in owners && cut in owners;
    }
  }

  /** Every NSEC record that validates under these keys lists exactly the types of its owner. */
  ghost predicate HonestTypes(env: Env, signer: DnsName, dnskeys: seq<ResourceRecord>, now: nat, types: TypeMap) {
    forall rrset: seq<ResourceRecord>, sigs: seq<ResourceRecord>
      | ValidateSignature(env, signer, dnskeys, rrset, sigs, now) == Ok(Secure)
      :: forall record <- rrset | record.rtype == NSEC :: HonestBitmap(env, types, record)
  }

  ghost predicate HonestBitmap(env: Env, types: TypeMap, record: ResourceRecord) {
    var nsec := ParseNsec(env, record.rdata);
    nsec.Ok? ==> ListsTypes(types, record.name, nsec.value.bitmap)
  }

  /**
   * The validator does not look at the bitmap of the covering record. A secure name error is about a name below a cut
   * exactly when that record stands above the query and lists a delegation or a redirection.
   */
  lemma DelegationDecided(env: Env, input: NameErrorInput, owners: seq<DnsName>, types: TypeMap)
    returns (i: nat, record: ResourceRecord)
    requires HonestRing(env, input.signer, input.dnskeys, input.now, owners)
    requires HonestTypes(env, input.signer, input.dnskeys, input.now, types) && NoOwnerBelowCuts(owners, types)
    requires ValidateNameError(env, input) == Ok(Secure)
    ensures record in input.coveringNsecs && IsLinkAt(env, owners, i, record)
    ensures CoversName(owners[i], NextOwner(owners, i), input.query)
    ensures Delegated(owners, types, input.query) <==>
            ListsCut(ParseNsec(env, record.rdata).value.bitmap) && IsStrictSubdomain(input.query, record.name)
  {
    i, record := NameErrorDecided(env, input, owners);
    assert HonestBitmap(env, types, record);
    ListsCutIff(types, record.name, ParseNsec(env, record.rdata).value.bitmap);
    DelegatedIff(owners, types, i, input.query);
  }
}
