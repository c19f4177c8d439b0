/** NSEC denial: a query and the wildcard at its closest encloser, each inside a signed gap of the owner ring. */
module Nsec {
  import opened Wrappers
  import opened Order
  import opened Dns
  import opened DnssecRecords
  import opened DnssecChain

  predicate CoversName(owner: DnsName, next: DnsName, query: DnsName) {
    Between(CompareNames, owner, next, query)
  }

  /** A name built from labels is refused when its wire form is too long. */
  function NameFromLabels(labels: DnsName): Result<DnsName, DnssecError> {
    if |EncodeName(labels)| > 255 then Err(NameEncoding) else Ok(labels)
  }

  function WildcardChild(encloser: DnsName): Result<DnsName, DnssecError> {
    NameFromLabels([STAR] + encloser)
  }

  /** The records of one type at the owner and class of `at`. */
  function AtOwner(records: seq<ResourceRecord>, at: ResourceRecord, rtype: U16): seq<ResourceRecord> {
    if records == [] then []
    else if records[0].rtype == rtype && records[0].name == at.name && records[0].rclass == at.rclass
    then [records[0]] + AtOwner(records[1..], at, rtype)
    else AtOwner(records[1..], at, rtype)
  }

  datatype RangeInput = RangeInput(
    signer: DnsName,
    dnskeys: seq<ResourceRecord>,
    nsecs: seq<ResourceRecord>,
    sigs: seq<ResourceRecord>,
    now: nat)

  function ValidateOwnerSet(env: Env, input: RangeInput, record: ResourceRecord): Result<Status, DnssecError> {
    ValidateSignature(env, input.signer, input.dnskeys, AtOwner(input.nsecs, record, NSEC),
                      AtOwner(input.sigs, record, RRSIG), input.now)
  }

  /** Looks for a covering record whose owner set is signed; errors of signatures wait until none is found. */
  function FindRange(env: Env, input: RangeInput, query: DnsName, records: seq<ResourceRecord>,
                     deferred: Option<DnssecError>): Result<Status, DnssecError>
    decreases |records|
  {
    if records == [] then if deferred.Some? then Err(deferred.value) else Ok(Bogus)
    else if records[0].rtype != NSEC then FindRange(env, input, query, records[1..], deferred)
    else
      var nsec :- ParseNsec(env, records[0].rdata);
      if !CoversName(records[0].name, nsec.next, query) then FindRange(env, input, query, records[1..], deferred)
      else
        match ValidateOwnerSet(env, input, records[0])
        case Ok(status) =>
          if status == Secure then Ok(Secure) else FindRange(env, input, query, records[1..], deferred)
        case Err(e) => FindRange(env, input, query, records[1..], Defer(deferred, e))
  }

  function ValidateRange(env: Env, input: RangeInput, query: DnsName): Result<Status, DnssecError> {
    FindRange(env, input, query, input.nsecs, None)
  }

  datatype NameErrorInput = NameErrorInput(
    signer: DnsName,
    dnskeys: seq<ResourceRecord>,
    query: DnsName,
    encloser: DnsName,
    coveringNsecs: seq<ResourceRecord>,
    coveringSigs: seq<ResourceRecord>,
    wildcardNsecs: seq<ResourceRecord>,
    wildcardSigs: seq<ResourceRecord>,
    now: nat)

  function ValidateNameError(env: Env, input: NameErrorInput): Result<Status, DnssecError> {
    if !IsStrictSubdomain(input.query, input.encloser) then Ok(Bogus)
    else if input.coveringNsecs == [] || input.wildcardNsecs == [] then Ok(Bogus)
    else
      var covering := RangeInput(input.signer, input.dnskeys, input.coveringNsecs, input.coveringSigs, input.now);
      var queryStatus :- ValidateRange(env, covering, input.query);
      if queryStatus != Secure then Ok(queryStatus)
      else
        var name :- WildcardChild(input.encloser);
        var wildcard := RangeInput(input.signer, input.dnskeys, input.wildcardNsecs, input.wildcardSigs, input.now);
        ValidateRange(env, wildcard, name)
  }

  // ---- Soundness ----

  ghost predicate LinkOf(env: Env, owners: seq<DnsName>, record: ResourceRecord) {
    exists i: nat :: i < |owners| && record.name == owners[i]
      && ParseNsec(env, record.rdata).Ok? && ParseNsec(env, record.rdata).value.next == NextOwner(owners, i)
  }

  /** Every NSEC record that validates under these keys is a link of the zone's ring of owner names. */
  ghost predicate HonestRing(env: Env, signer: DnsName, dnskeys: seq<ResourceRecord>, now: nat, owners: seq<DnsName>) {
    && Ring(CompareNames, owners)
    && forall rrset: seq<ResourceRecord>, sigs: seq<ResourceRecord>
         | ValidateSignature(env, signer, dnskeys, rrset, sigs, now) == Ok(Secure)
         :: forall record <- rrset | record.rtype == NSEC :: LinkOf(env, owners, record)
  }

  lemma {:induction false} AtOwnerHas(records: seq<ResourceRecord>, at: ResourceRecord)
    requires at in records
    ensures at in AtOwner(records, at, at.rtype)
  {
    if records[0] != at {
      AtOwnerHas(records[1..], at);
    }
  }

  lemma {:induction false} FoundRange(env: Env, input: RangeInput, query: DnsName, records: seq<ResourceRecord>,
                                      deferred: Option<DnssecError>) returns (record: ResourceRecord)
    requires FindRange(env, input, query, records, deferred) == Ok(Secure)
    ensures record in records && record.rtype == NSEC && ParseNsec(env, record.rdata).Ok?
    ensures CoversName(record.name, ParseNsec(env, record.rdata).value.next, query)
    ensures ValidateOwnerSet(env, input, record) == Ok(Secure)
    decreases |records|
  {
    record := records[0];
    if record.rtype != NSEC || !CoversName(record.name, ParseNsec(env, record.rdata).value.next, query) {
      record := FoundRange(env, input, query, records[1..], deferred);
    } else {
      match ValidateOwnerSet(env, input, record)
      case Ok(status) =>
        if status != Secure {
          record := FoundRange(env, input, query, records[1..], deferred);
        }
      case Err(e) => record := FoundRange(env, input, query, records[1..], Defer(deferred, e));
    }
  }

  /** A record whose gap holds the query, in an owner set that validates. */
  ghost predicate Denies(env: Env, input: RangeInput, query: DnsName, record: ResourceRecord) {
    && record.rtype == NSEC && ParseNsec(env, record.rdata).Ok?
    && CoversName(record.name, ParseNsec(env, record.rdata).value.next, query)
    && ValidateOwnerSet(env, input, record) == Ok(Secure)
  }

  lemma {:induction false} FindRangeIff(env: Env, input: RangeInput, query: DnsName, records: seq<ResourceRecord>,
                                        deferred: Option<DnssecError>)
    requires forall record <- records | record.rtype == NSEC :: ParseNsec(env, record.rdata).Ok?
    ensures FindRange(env, input, query, records, deferred) == Ok(Secure) <==>
            exists record <- records :: Denies(env, input, query, record)
    decreases |records|
  {
    if records != [] {
      assert forall record :: record in records <==> record == records[0] || record in records[1..];
      var e := ValidateOwnerSet(env, input, records[0]);
      FindRangeIff(env, input, query, records[1..], deferred);
      if e.Err? {
        FindRangeIff(env, input, query, records[1..], Defer(deferred, e.error));
      }
      assert (exists record <- records :: Denies(env, input, query, record))
        <==> (|| Denies(env, input, query, records[0])
              || exists record <- records[1..] :: Denies(env, input, query, record));
    }
  }

  /** When all NSEC records parse, a range is secure exactly when one of them denies the query. */
  lemma RangeSecureIff(env: Env, input: RangeInput, query: DnsName)
    requires forall record <- input.nsecs | record.rtype == NSEC :: ParseNsec(env, record.rdata).Ok?
    ensures ValidateRange(env, input, query) == Ok(Secure) <==>
            exists record <- input.nsecs :: Denies(env, input, query, record)
  {
    FindRangeIff(env, input, query, input.nsecs, None);
  }

  /** The record is link `i` of the ring. */
  ghost predicate IsLinkAt(env: Env, owners: seq<DnsName>, i: nat, record: ResourceRecord) {
    && i < |owners| && record.rtype == NSEC && record.name == owners[i]
    && ParseNsec(env, record.rdata).Ok? && ParseNsec(env, record.rdata).value.next == NextOwner(owners, i)
  }

  /** A secure range comes with a record of the input that is a link of the ring and covers the query. */
  lemma RangeSound(env: Env, input: RangeInput, query: DnsName, owners: seq<DnsName>)
    returns (i: nat, record: ResourceRecord)
    requires HonestRing(env, input.signer, input.dnskeys, input.now, owners)
    requires ValidateRange(env, input, query) == Ok(Secure)
    ensures record in input.nsecs && IsLinkAt(env, owners, i, record)
    ensures ValidateOwnerSet(env, input, record) == Ok(Secure) && record in AtOwner(input.nsecs, record, NSEC)
    ensures CoveredBy(CompareNames, owners, i, query) && query !in owners
  {
    record := FoundRange(env, input, query, input.nsecs, None);
    AtOwnerHas(input.nsecs, record);
    assert LinkOf(env, owners, record);
    i :| i < |owners| && record.name == owners[i]
      && ParseNsec(env, record.rdata).value.next == NextOwner(owners, i);
    assert CoveredBy(CompareNames, owners, i, query);
    NamesTotallyOrdered();
    RingPartition(CompareNames, owners, query);
  }

  /** A secure name error means that neither the query nor the wildcard at the encloser owns a record. */
  lemma NameErrorSound(env: Env, input: NameErrorInput, owners: seq<DnsName>)
    requires HonestRing(env, input.signer, input.dnskeys, input.now, owners)
    requires ValidateNameError(env, input) == Ok(Secure)
    ensures IsStrictSubdomain(input.query, input.encloser)
    ensures input.query !in owners && [STAR] + input.encloser !in owners
  {
    var covering := RangeInput(input.signer, input.dnskeys, input.coveringNsecs, input.coveringSigs, input.now);
    var wildcard := RangeInput(input.signer, input.dnskeys, input.wildcardNsecs, input.wildcardSigs, input.now);
    var _, _ := RangeSound(env, covering, input.query, owners);
    var _, _ := RangeSound(env, wildcard, [STAR] + input.encloser, owners);
  }

  /** Completeness of the ring: a name that owns nothing is denied by exactly one link. */
  lemma ExactlyOneLink(owners: seq<DnsName>, query: DnsName)
    requires Ring(CompareNames, owners)
    ensures if query in owners then forall i: nat | i < |owners| :: !CoversName(owners[i], NextOwner(owners, i), query)
            else
              exists i: nat | i < |owners| ::
                && CoversName(owners[i], NextOwner(owners, i), query)
                && forall j: nat | j < |owners| && CoversName(owners[j], NextOwner(owners, j), query) :: j == i
  {
    NamesTotallyOrdered();
    RingPartition(CompareNames, owners, query);
    if query !in owners {
      var i: nat :| i < |owners| && CoveredBy(CompareNames, owners, i, query)
        && forall j: nat | j < |owners| && CoveredBy(CompareNames, owners, j, query) :: j == i;
      assert CoversName(owners[i], NextOwner(owners, i), query);
      forall j: nat | j < |owners| && CoversName(owners[j], NextOwner(owners, j), query) ensures j == i {
        assert CoveredBy(CompareNames, owners, j, query);
      }
    } else {
      forall i: nat | i < |owners| ensures !CoversName(owners[i], NextOwner(owners, i), query) {
        assert !CoveredBy(CompareNames, owners, i, query);
      }
    }
  }

  // ---- Names without records of their own ----

  /** Extensions of a sequence are greater than it, and nothing else lies between it and any of them. */
  lemma {:induction false} PrefixInterval<T(!new)>(cmp: (T, T) -> Ordering, p: seq<T>, b: seq<T>, c: seq<T>)
    requires TotalOrder(cmp) && p <= c && p != c
    ensures Lexicographic(cmp, p, c) == Less
    ensures Lexicographic(cmp, p, b) == Less && Lexicographic(cmp, b, c) != Greater ==> p <= b
    decreases |p|
  {
    if p != [] && b != [] {
      assert p == [p[0]] + p[1..] && c == [c[0]] + c[1..] && b == [b[0]] + b[1..];
      PrefixInterval(cmp, p[1..], b[1..], c[1..]);
    } else if p != [] {
      PrefixInterval(cmp, p[1..], [], c[1..]);
    }
  }

  lemma SubdomainIsPrefix(name: DnsName, parent: DnsName)
    ensures IsStrictSubdomain(name, parent) <==> Reversed(parent) <= Reversed(name) && |name| > |parent|
  {
    if |name| > |parent| {
      var tail := name[|name| - |parent|..];
      assert Reversed(name)[..|parent|] == Reversed(tail);
      if Reversed(tail) == Reversed(parent) {
        ReversedInjective(tail, parent);
      }
    }
  }

  /** In canonical order the names below `parent` directly follow it. */
  lemma DescendantsFollow(parent: DnsName, between: DnsName, name: DnsName)
    requires IsStrictSubdomain(name, parent)
    ensures CompareNames(parent, name) == Less
    ensures CompareNames(parent, between) == Less && CompareNames(between, name) != Greater ==>
              IsStrictSubdomain(between, parent)
  {
    LexicographicIsTotal(CompareBytes);
    SubdomainIsPrefix(name, parent);
    SubdomainIsPrefix(between, parent);
    PrefixInterval<seq<Byte>>(CompareLabels(), Reversed(parent), Reversed(between), Reversed(name));
    NamesTotallyOrdered();
    if CompareNames(parent, between) == Less && CompareNames(between, name) != Greater {
      assert parent != between;
      if |between| == |parent| {
        assert Reversed(parent) == Reversed(between);
        ReversedInjective(parent, between);
      }
    }
  }

  /**
   * A covered name still exists as an empty non-terminal when some owner lies below it. The covering link tells:
   * exactly then its next owner lies below the name. The validator does not look, so a secure name error denies
   * records at the name, not the name's existence.
   */
  lemma EmptyNonTerminalIff(owners: seq<DnsName>, i: nat, query: DnsName)
    requires Ring(CompareNames, owners) && i < |owners| && CoversName(owners[i], NextOwner(owners, i), query)
    ensures (exists owner <- owners :: IsStrictSubdomain(owner, query)) <==>
            IsStrictSubdomain(NextOwner(owners, i), query)
  {
    NamesTotallyOrdered();
    var next := NextOwner(owners, i);
    if exists owner <- owners :: IsStrictSubdomain(owner, query) {
      var k: nat :| k < |owners| && IsStrictSubdomain(owners[k], query);
      DescendantsFollow(query, next, owners[k]);
      NextIsNearest(owners, i, query, k);
    }
  }

  /** Such names are denied: with records only at the apex and below the name, the apex link covers the name. */
  lemma EmptyNonTerminalCovered(apex: DnsName, query: DnsName, owner: DnsName)
    requires IsStrictSubdomain(query, apex) && IsStrictSubdomain(owner, query)
    ensures Ring(CompareNames, [apex, owner]) && CoversName(apex, NextOwner([apex, owner], 0), query)
  {
    NamesTotallyOrdered();
    DescendantsFollow(apex, query, query);
    DescendantsFollow(query, owner, owner);
  }

  /** No owner after a covered name comes before the next owner of the covering link. */
  lemma NextIsNearest(owners: seq<DnsName>, i: nat, query: DnsName, k: nat)
    requires TotalOrder(CompareNames) && Ring(CompareNames, owners) && i < |owners| && k < |owners|
    requires CoversName(owners[i], NextOwner(owners, i), query) && CompareNames(query, owners[k]) == Less
    ensures CompareNames(query, NextOwner(owners, i)) == Less
    ensures CompareNames(NextOwner(owners, i), owners[k]) != Greater
  {
  }
}
