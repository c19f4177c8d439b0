/** Which NSEC name errors are accepted, and which verdict comes out when they are not. */
module NsecComplete {
  import opened Wrappers
  import opened Dns
  import opened DnssecRecords
  import opened CanonicalForms
  import opened DnssecChain
  import opened Nsec

  /** The query lies strictly between owner and next; beyond the end of the order when next comes first; or anywhere. */
  ghost predicate InGap(owner: DnsName, next: DnsName, query: DnsName) {
    && query != owner
    && (|| (NamePrecedes(owner, next) && NamePrecedes(owner, query) && NamePrecedes(query, next))
        || (NamePrecedes(next, owner) && (NamePrecedes(owner, query) || NamePrecedes(query, next)))
        || owner == next)
  }

  lemma InGapIff(owner: DnsName, next: DnsName, query: DnsName)
    ensures InGap(owner, next, query) <==> CoversName(owner, next, query)
  {
    NamesLessIff(owner, next);
    NamesLessIff(next, owner);
    NamesLessIff(owner, query);
    NamesLessIff(query, next);
    NamesPair(owner, next);
    NamesPair(next, owner);
    BetweenIff(CompareNames, owner, next, query);
  }

  /** The records of one type with the same owner and class. */
  ghost predicate Alike(record: ResourceRecord, at: ResourceRecord, rtype: U16) {
    record.rtype == rtype && record.name == at.name && record.rclass == at.rclass
  }

  /** Picking out the records of an owner drops the others and nothing else. */
  lemma {:induction false} AtOwnerIs(records: seq<ResourceRecord>, at: ResourceRecord, rtype: U16, r: ResourceRecord)
    ensures multiset(AtOwner(records, at, rtype))[r] == if Alike(r, at, rtype) then multiset(records)[r] else 0
    decreases |records|
  {
    if records != [] {
      assert records == [records[0]] + records[1..];
      AtOwnerIs(records[1..], at, rtype, r);
    }
  }

  /** An NSEC record whose gap holds the query. */
  ghost predicate Covering(env: Env, record: ResourceRecord, query: DnsName) {
    && record.rtype == NSEC && ParseNsec(env, record.rdata).Ok?
    && InGap(record.name, ParseNsec(env, record.rdata).value.next, query)
  }

  /** The verdict on the NSEC records at the owner of `record`, under the signatures there. */
  function OwnerVerdict(env: Env, input: RangeInput, record: ResourceRecord): Result<Status, DnssecError> {
    ValidateSignature(env, input.signer, input.dnskeys, AtOwner(input.nsecs, record, NSEC),
                      AtOwner(input.sigs, record, RRSIG), input.now)
  }

  /** The NSEC records before position `n` parse. */
  ghost predicate ParsedBefore(env: Env, records: seq<ResourceRecord>, n: nat)
    requires n <= |records|
  {
    forall j: nat | j < n && records[j].rtype == NSEC :: ParseNsec(env, records[j].rdata).Ok?
  }

  /** A record that covers the query and is signed, with nothing unreadable before it. */
  ghost predicate DeniedAt(env: Env, input: RangeInput, query: DnsName, records: seq<ResourceRecord>, i: nat) {
    && i < |records| && ParsedBefore(env, records, i)
    && Covering(env, records[i], query) && OwnerVerdict(env, input, records[i]) == Ok(Secure)
  }

  /** The search passes over the record. */
  ghost predicate PassedOver(env: Env, input: RangeInput, query: DnsName, record: ResourceRecord) {
    && (record.rtype == NSEC ==> ParseNsec(env, record.rdata).Ok?)
    && !(Covering(env, record, query) && OwnerVerdict(env, input, record) == Ok(Secure))
  }

  function DeferredBy(env: Env, input: RangeInput, query: DnsName, record: ResourceRecord,
                      deferred: Option<DnssecError>): Option<DnssecError>
  {
    if record.rtype != NSEC || ParseNsec(env, record.rdata).Err?
       || !CoversName(record.name, ParseNsec(env, record.rdata).value.next, query)
    then deferred
    else
      match OwnerVerdict(env, input, record)
      case Ok(_) => deferred
      case Err(e) => Defer(deferred, e)
  }

  lemma PassStep(env: Env, input: RangeInput, query: DnsName, records: seq<ResourceRecord>,
                 deferred: Option<DnssecError>)
    requires records != [] && PassedOver(env, input, query, records[0])
    ensures FindRange(env, input, query, records, deferred)
         == FindRange(env, input, query, records[1..], DeferredBy(env, input, query, records[0], deferred))
  {
    if records[0].rtype == NSEC {
      InGapIff(records[0].name, ParseNsec(env, records[0].rdata).value.next, query);
    }
  }

  lemma {:induction false} FindRangeSecureIff(env: Env, input: RangeInput, query: DnsName, records: seq<ResourceRecord>,
                                              deferred: Option<DnssecError>)
    ensures FindRange(env, input, query, records, deferred) == Ok(Secure) <==>
            exists i: nat :: DeniedAt(env, input, query, records, i)
    decreases |records|
  {
    if records != [] {
      var rest := records[1..];
      if records[0].rtype == NSEC && ParseNsec(env, records[0].rdata).Ok? {
        InGapIff(records[0].name, ParseNsec(env, records[0].rdata).value.next, query);
      }
      if PassedOver(env, input, query, records[0]) {
        PassStep(env, input, query, records, deferred);
        FindRangeSecureIff(env, input, query, rest, DeferredBy(env, input, query, records[0], deferred));
        DeniedLater(env, input, query, records);
      } else if records[0].rtype == NSEC && ParseNsec(env, records[0].rdata).Ok? {
        assert DeniedAt(env, input, query, records, 0);
      } else {
        assert forall i: nat | 0 < i <= |records| :: !ParsedBefore(env, records, i);
      }
    }
  }

  lemma DeniedLater(env: Env, input: RangeInput, query: DnsName, records: seq<ResourceRecord>)
    requires records != [] && PassedOver(env, input, query, records[0])
    ensures (exists i: nat :: DeniedAt(env, input, query, records, i)) <==>
            exists i: nat :: DeniedAt(env, input, query, records[1..], i)
  {
    var rest := records[1..];
    if i: nat :| DeniedAt(env, input, query, records, i) {
      assert i > 0;
      assert DeniedAt(env, input, query, rest, i - 1);
    }
    if i: nat :| DeniedAt(env, input, query, rest, i) {
      assert DeniedAt(env, input, query, records, i + 1);
    }
  }

  /** An NSEC record covers the query, but its signatures give this error. */
  ghost predicate SignatureFails(env: Env, input: RangeInput, query: DnsName, record: ResourceRecord, e: DnssecError) {
    Covering(env, record, query) && OwnerVerdict(env, input, record) == Err(e)
  }

  lemma {:induction false} FindRangeOpen(env: Env, input: RangeInput, query: DnsName, records: seq<ResourceRecord>,
                                         deferred: Option<DnssecError>)
    requires forall record <- records :: PassedOver(env, input, query, record)
    ensures var r := FindRange(env, input, query, records, deferred);
            if deferred.Some? then r == Err(deferred.value)
            else
              || (r == Ok(Bogus) && forall record <- records, e :: !SignatureFails(env, input, query, record, e))
              || (r.Err? && exists record <- records :: SignatureFails(env, input, query, record, r.error))
    decreases |records|
  {
    if records != [] {
      assert forall record :: record in records <==> record == records[0] || record in records[1..];
      assert PassedOver(env, input, query, records[0]);
      if records[0].rtype == NSEC {
        InGapIff(records[0].name, ParseNsec(env, records[0].rdata).value.next, query);
      }
      PassStep(env, input, query, records, deferred);
      var later := DeferredBy(env, input, query, records[0], deferred);
      FindRangeOpen(env, input, query, records[1..], later);
      if deferred.None? && later.Some? {
        assert SignatureFails(env, input, query, records[0], later.value);
      }
    }
  }

  /**
   * The whole verdict on a range whose NSEC records parse: secure if a covering record is signed; otherwise an error
   * of some covering record's signatures, if any gives one; and otherwise bogus.
   */
  lemma RangeVerdict(env: Env, input: RangeInput, query: DnsName)
    requires ParsedBefore(env, input.nsecs, |input.nsecs|)
    ensures var r := ValidateRange(env, input, query);
            if exists record <- input.nsecs ::
                 Covering(env, record, query) && OwnerVerdict(env, input, record) == Ok(Secure)
            then r == Ok(Secure)
            else
              || (r == Ok(Bogus) && forall record <- input.nsecs, e :: !SignatureFails(env, input, query, record, e))
              || (r.Err? && exists record <- input.nsecs :: SignatureFails(env, input, query, record, r.error))
  {
    var records := input.nsecs;
    FindRangeSecureIff(env, input, query, records, None);
    if record :| record in records && Covering(env, record, query) && OwnerVerdict(env, input, record) == Ok(Secure) {
      var i: nat :| i < |records| && records[i] == record;
      assert DeniedAt(env, input, query, records, i);
    } else {
      assert forall record <- records :: PassedOver(env, input, query, record);
      FindRangeOpen(env, input, query, records, None);
    }
  }

  ghost predicate Denied(env: Env, input: RangeInput, query: DnsName) {
    exists i: nat :: DeniedAt(env, input, query, input.nsecs, i)
  }

  lemma WildcardNameIs(encloser: DnsName)
    ensures WildcardChild(encloser) ==
            if |EncodeName([[42]] + encloser)| <= 255 then Ok([[42]] + encloser) else Err(NameEncoding)
  {
  }

  lemma BothRanges(env: Env, input: NameErrorInput, covering: RangeInput, wildcard: RangeInput)
    requires IsStrictSubdomain(input.query, input.encloser)
    requires covering == RangeInput(input.signer, input.dnskeys, input.coveringNsecs, input.coveringSigs, input.now)
    requires wildcard == RangeInput(input.signer, input.dnskeys, input.wildcardNsecs, input.wildcardSigs, input.now)
    ensures ValidateNameError(env, input) == Ok(Secure) <==>
            && ValidateRange(env, covering, input.query) == Ok(Secure)
            && |EncodeName([[42]] + input.encloser)| <= 255
            && ValidateRange(env, wildcard, [[42]] + input.encloser) == Ok(Secure)
  {
    WildcardNameIs(input.encloser);
  }

  /** A name error is secure exactly when query and wildcard at the encloser are each denied by their records. */
  lemma NameErrorSecureIff(env: Env, input: NameErrorInput)
    ensures ValidateNameError(env, input) == Ok(Secure) <==>
            && IsStrictSubdomain(input.query, input.encloser) && |EncodeName([[42]] + input.encloser)| <= 255
            && Denied(env, RangeInput(input.signer, input.dnskeys, input.coveringNsecs, input.coveringSigs, input.now),
                      input.query)
            && Denied(env, RangeInput(input.signer, input.dnskeys, input.wildcardNsecs, input.wildcardSigs, input.now),
                      [[42]] + input.encloser)
  {
    var covering := RangeInput(input.signer, input.dnskeys, input.coveringNsecs, input.coveringSigs, input.now);
    var wildcard := RangeInput(input.signer, input.dnskeys, input.wildcardNsecs, input.wildcardSigs, input.now);
    if IsStrictSubdomain(input.query, input.encloser) {
      BothRanges(env, input, covering, wildcard);
    }
    FindRangeSecureIff(env, covering, input.query, covering.nsecs, None);
    FindRangeSecureIff(env, wildcard, [[42]] + input.encloser, wildcard.nsecs, None);
  }

  lemma {:induction false} FindRangeNeverInsecure(env: Env, input: RangeInput, query: DnsName,
                                                  records: seq<ResourceRecord>, deferred: Option<DnssecError>)
    ensures FindRange(env, input, query, records, deferred) != Ok(InsecureDelegation)
    decreases |records|
  {
    if records != [] {
      FindRangeNeverInsecure(env, input, query, records[1..], deferred);
      var verdict := OwnerVerdict(env, input, records[0]);
      if verdict.Err? {
        FindRangeNeverInsecure(env, input, query, records[1..], Defer(deferred, verdict.error));
      }
    }
  }

  /** Names outside the encloser and missing records make a name error bogus; none is ever an insecure delegation. */
  lemma NameErrorVerdict(env: Env, input: NameErrorInput)
    ensures ValidateNameError(env, input) != Ok(InsecureDelegation)
    ensures !IsStrictSubdomain(input.query, input.encloser) || input.coveringNsecs == [] || input.wildcardNsecs == []
            ==> ValidateNameError(env, input) == Ok(Bogus)
  {
    var covering := RangeInput(input.signer, input.dnskeys, input.coveringNsecs, input.coveringSigs, input.now);
    var wildcard := RangeInput(input.signer, input.dnskeys, input.wildcardNsecs, input.wildcardSigs, input.now);
    FindRangeNeverInsecure(env, covering, input.query, covering.nsecs, None);
    FindRangeNeverInsecure(env, wildcard, [STAR] + input.encloser, wildcard.nsecs, None);
  }
}
