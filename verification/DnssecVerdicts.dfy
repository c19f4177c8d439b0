/** Which verdict comes out when it is not `Secure`: of one signature check, of one zone, and of a chain. */
module DnssecVerdicts {
  import opened Wrappers
  import opened Dns
  import opened DnssecRecords
  import opened SignedData
  import opened DnssecChain
  import opened DnssecSoundness

  // ---- One signature check ----

  /** A signature over the RRset's type under the signer, and a key with its algorithm and tag: a pair that is tried. */
  ghost predicate Tried(signer: DnsName, rrset: seq<ResourceRecord>, rrsig: RrsigRecord, key: DnskeyRecord)
    requires rrset != []
  {
    && rrsig.typeCovered == rrset[0].rtype && rrsig.signerName == signer
    && key.algorithm == rrsig.algorithm && key.KeyTag() == rrsig.keyTag
  }

  /** Trying the pair is an error: it fits the owner and is a zone key, but one of three things is wrong with it. */
  ghost predicate Fails(env: Env, rrset: seq<ResourceRecord>, rrsig: RrsigRecord, key: DnskeyRecord, now: nat,
                        e: DnssecError)
    requires rrset != []
  {
    && rrsig.labels == |rrset[0].name| && key.IsZoneKey()
    && if key.algorithm !in {5, 7, 8, 10, 13, 14, 15} then e == UnsupportedAlgorithm
       else if env.malformed(key.algorithm, key.publicKey, rrsig.signature).Some? then
         e == env.malformed(key.algorithm, key.publicKey, rrsig.signature).value
       else SignedBytes(env, rrset, rrsig, now) == Err(e)
  }

  lemma VerifyFailsIff(env: Env, signer: DnsName, rrset: seq<ResourceRecord>, rrsig: RrsigRecord, key: DnskeyRecord,
                       now: nat, e: DnssecError)
    requires rrset != [] && Tried(signer, rrset, rrsig, key)
    ensures VerifyRrsig(env, rrset, rrsig, key, now) == Err(e) <==> Fails(env, rrset, rrsig, key, now, e)
  {
  }

  ghost predicate PairFails(env: Env, signer: DnsName, rrset: seq<ResourceRecord>, rrsig: RrsigRecord,
                            key: DnskeyRecord, now: nat, e: DnssecError)
    requires rrset != []
  {
    Tried(signer, rrset, rrsig, key) && Fails(env, rrset, rrsig, key, now, e)
  }

  lemma {:induction false} KeysDeferred(env: Env, signer: DnsName, rrset: seq<ResourceRecord>, rrsig: RrsigRecord,
                                        keys: seq<DnskeyRecord>, now: nat, deferred: Option<DnssecError>)
    requires rrset != [] && rrsig.typeCovered == rrset[0].rtype && rrsig.signerName == signer
    requires TryKeys(env, rrset, rrsig, keys, now, deferred).Unverified?
    ensures var later := TryKeys(env, rrset, rrsig, keys, now, deferred).deferred;
            && (deferred.Some? ==> later == deferred)
            && (later.Some? ==> deferred.Some? || exists key <- keys ::
                  PairFails(env, signer, rrset, rrsig, key, now, later.value))
            && (forall key <- keys, e | PairFails(env, signer, rrset, rrsig, key, now, e) :: later.Some?)
    decreases |keys|
  {
    if keys != [] {
      assert forall key :: key in keys <==> key == keys[0] || key in keys[1..];
      if keys[0].algorithm != rrsig.algorithm || keys[0].KeyTag() != rrsig.keyTag {
        KeysDeferred(env, signer, rrset, rrsig, keys[1..], now, deferred);
      } else {
        match VerifyRrsig(env, rrset, rrsig, keys[0], now)
        case Ok(_) =>
          KeysDeferred(env, signer, rrset, rrsig, keys[1..], now, deferred);
        case Err(e) =>
          VerifyFailsIff(env, signer, rrset, rrsig, keys[0], now, e);
          assert PairFails(env, signer, rrset, rrsig, keys[0], now, e);
          KeysDeferred(env, signer, rrset, rrsig, keys[1..], now, Defer(deferred, e));
      }
    }
  }

  lemma {:induction false} SigsDeferred(env: Env, signer: DnsName, rrset: seq<ResourceRecord>,
                                        rrsigs: seq<RrsigRecord>, keys: seq<DnskeyRecord>, now: nat,
                                        deferred: Option<DnssecError>)
    requires rrset != [] && TrySigs(env, signer, rrset, rrsigs, keys, now, deferred).Unverified?
    ensures var later := TrySigs(env, signer, rrset, rrsigs, keys, now, deferred).deferred;
            && (deferred.Some? ==> later == deferred)
            && (later.Some? ==> deferred.Some? || exists rrsig <- rrsigs, key <- keys ::
                  PairFails(env, signer, rrset, rrsig, key, now, later.value))
            && (forall rrsig <- rrsigs, key <- keys, e | PairFails(env, signer, rrset, rrsig, key, now, e) ::
                  later.Some?)
    decreases |rrsigs|
  {
    if rrsigs != [] {
      assert forall rrsig :: rrsig in rrsigs <==> rrsig == rrsigs[0] || rrsig in rrsigs[1..];
      if rrsigs[0].typeCovered != rrset[0].rtype || rrsigs[0].signerName != signer {
        SigsDeferred(env, signer, rrset, rrsigs[1..], keys, now, deferred);
      } else {
        KeysDeferred(env, signer, rrset, rrsigs[0], keys, now, deferred);
        var later := TryKeys(env, rrset, rrsigs[0], keys, now, deferred).deferred;
        SigsDeferred(env, signer, rrset, rrsigs[1..], keys, now, later);
      }
    }
  }

  /** Some listed pair is tried and fails with this error. */
  ghost predicate SomePairFails(env: Env, signer: DnsName, dnskeys: seq<ResourceRecord>, rrset: seq<ResourceRecord>,
                                sigs: seq<ResourceRecord>, now: nat, e: DnssecError)
    requires rrset != []
  {
    exists key, rrsig ::
      PairFails(env, signer, rrset, rrsig, key, now, e) && KeyIn(key, dnskeys) && SigIn(env, rrsig, sigs, rrset)
  }

  /**
   * The whole verdict on an RRset whose keys and signatures parse: secure if some listed pair signs it; otherwise an
   * error that some tried pair gives, if any gives one; and otherwise bogus. It is never an insecure delegation.
   */
  lemma SignatureVerdict(env: Env, signer: DnsName, dnskeys: seq<ResourceRecord>, rrset: seq<ResourceRecord>,
                         sigs: seq<ResourceRecord>, now: nat)
    requires rrset != [] && ParseKeySet(dnskeys).Ok? && ParseSigSet(env, sigs, rrset[0].name, rrset[0].rclass).Ok?
    ensures var r := ValidateSignature(env, signer, dnskeys, rrset, sigs, now);
            var signed := SignedUnder(env, signer, dnskeys, rrset, sigs, now);
            && (r == Ok(Secure) <==> signed)
            && (r == Ok(Bogus) <==> !signed && forall e :: !SomePairFails(env, signer, dnskeys, rrset, sigs, now, e))
            && (r.Err? <==> !signed && exists e :: SomePairFails(env, signer, dnskeys, rrset, sigs, now, e))
            && (r.Err? ==> SomePairFails(env, signer, dnskeys, rrset, sigs, now, r.error))
            && r != Ok(InsecureDelegation)
  {
    SecureIffSigned(env, signer, dnskeys, rrset, sigs, now);
    if !SignedUnder(env, signer, dnskeys, rrset, sigs, now) {
      var later := UnsignedVerdict(env, signer, dnskeys, rrset, sigs, now);
    }
  }

  lemma PairsListed(env: Env, signer: DnsName, dnskeys: seq<ResourceRecord>, rrset: seq<ResourceRecord>,
                    sigs: seq<ResourceRecord>, now: nat, keys: seq<DnskeyRecord>, rrsigs: seq<RrsigRecord>)
    requires rrset != [] && ParseKeySet(dnskeys) == Ok(keys)
    requires ParseSigSet(env, sigs, rrset[0].name, rrset[0].rclass) == Ok(rrsigs)
    ensures forall e :: SomePairFails(env, signer, dnskeys, rrset, sigs, now, e) <==>
                        exists rrsig <- rrsigs, key <- keys :: PairFails(env, signer, rrset, rrsig, key, now, e)
  {
    ParsedKeys(dnskeys);
    ParsedSigs(env, sigs, rrset);
  }

  lemma UnsignedVerdict(env: Env, signer: DnsName, dnskeys: seq<ResourceRecord>, rrset: seq<ResourceRecord>,
                        sigs: seq<ResourceRecord>, now: nat) returns (later: Option<DnssecError>)
    requires rrset != [] && ParseKeySet(dnskeys).Ok? && ParseSigSet(env, sigs, rrset[0].name, rrset[0].rclass).Ok?
    requires ValidateSignature(env, signer, dnskeys, rrset, sigs, now) != Ok(Secure)
    ensures ValidateSignature(env, signer, dnskeys, rrset, sigs, now)
         == if later.Some? then Err(later.value) else Ok(Bogus)
    ensures later.Some? ==> SomePairFails(env, signer, dnskeys, rrset, sigs, now, later.value)
    ensures later.None? ==> forall e :: !SomePairFails(env, signer, dnskeys, rrset, sigs, now, e)
  {
    var keys, rrsigs := ParseKeySet(dnskeys).value, ParseSigSet(env, sigs, rrset[0].name, rrset[0].rclass).value;
    PairsListed(env, signer, dnskeys, rrset, sigs, now, keys, rrsigs);
    SigsDeferred(env, signer, rrset, rrsigs, keys, now, None);
    later := TrySigs(env, signer, rrset, rrsigs, keys, now, None).deferred;
  }

  /** What cannot be read is an error: no records, keys that do not parse, or signatures that do not. */
  lemma UnreadableVerdict(env: Env, signer: DnsName, dnskeys: seq<ResourceRecord>, rrset: seq<ResourceRecord>,
                          sigs: seq<ResourceRecord>, now: nat)
    ensures rrset == [] ==> ValidateSignature(env, signer, dnskeys, rrset, sigs, now) == Err(InvalidRrset)
    ensures rrset != [] && ParseKeySet(dnskeys).Err? ==>
              ValidateSignature(env, signer, dnskeys, rrset, sigs, now) == Err(ParseKeySet(dnskeys).error)
    ensures rrset != [] && ParseKeySet(dnskeys).Ok?
            && ParseSigSet(env, sigs, rrset[0].name, rrset[0].rclass).Err? ==>
              ValidateSignature(env, signer, dnskeys, rrset, sigs, now)
              == Err(ParseSigSet(env, sigs, rrset[0].name, rrset[0].rclass).error)
  {
  }

  // ---- Delegations ----

  /** The parent has no DS record for the child: the child is unsigned. */
  predicate NoDs(ds: seq<ResourceRecord>) {
    forall record <- ds :: record.rtype != DS
  }

  lemma {:induction false} NoDsIff(ds: seq<ResourceRecord>)
    ensures ParseDsSet(ds) == Ok([]) <==> NoDs(ds)
  {
    if ds != [] {
      assert forall record :: record in ds <==> record == ds[0] || record in ds[1..];
      NoDsIff(ds[1..]);
    }
  }

  /** A signature check never says that a delegation is insecure. */
  lemma NeverInsecure(env: Env, signer: DnsName, dnskeys: seq<ResourceRecord>, rrset: seq<ResourceRecord>,
                      sigs: seq<ResourceRecord>, now: nat)
    ensures ValidateSignature(env, signer, dnskeys, rrset, sigs, now) != Ok(InsecureDelegation)
  {
    if rrset != [] && ParseKeySet(dnskeys).Ok? && ParseSigSet(env, sigs, rrset[0].name, rrset[0].rclass).Ok? {
      SignatureVerdict(env, signer, dnskeys, rrset, sigs, now);
    }
  }

  lemma DelegationInsecureIff(env: Env, owner: DnsName, ds: seq<ResourceRecord>, dnskeys: seq<ResourceRecord>)
    ensures var r := DsAuthenticatedKeys(env, owner, ds, dnskeys);
            (r.Ok? && r.value.0 == InsecureDelegation) <==> NoDs(ds)
  {
    NoDsIff(ds);
  }

  lemma ZoneInsecureIff(env: Env, owner: DnsName, ds: seq<ResourceRecord>, dnskeys: seq<ResourceRecord>,
                        sigs: seq<ResourceRecord>, now: nat)
    ensures ValidateZone(env, owner, ds, dnskeys, sigs, now) == Ok(InsecureDelegation) <==> NoDs(ds)
  {
    DelegationInsecureIff(env, owner, ds, dnskeys);
    var r := DsAuthenticatedKeys(env, owner, ds, dnskeys);
    if r.Ok? {
      NeverInsecure(env, owner, r.value.1, dnskeys, sigs, now);
    }
  }

  lemma LinkInsecureIff(env: Env, owner: DnsName, dnskeys: seq<ResourceRecord>, link: Link, now: nat)
    ensures ValidateLink(env, owner, dnskeys, link, now) == Ok(InsecureDelegation) <==> NoDs(link.ds)
  {
    DelegationInsecureIff(env, link.childOwner, link.ds, link.dnskeys);
    NeverInsecure(env, owner, dnskeys, link.ds, link.dsSigs, now);
    var r := DsAuthenticatedKeys(env, link.childOwner, link.ds, link.dnskeys);
    if r.Ok? {
      NeverInsecure(env, link.childOwner, r.value.1, link.dnskeys, link.dnskeySigs, now);
    }
  }

  // ---- Chains ----

  /** The owner and the keys in force at link `i`. */
  function OwnerAt(owner: DnsName, links: seq<Link>, i: nat): DnsName
    requires i <= |links|
  {
    if i == 0 then owner else links[i - 1].childOwner
  }

  function KeysAt(dnskeys: seq<ResourceRecord>, links: seq<Link>, i: nat): seq<ResourceRecord>
    requires i <= |links|
  {
    if i == 0 then dnskeys else links[i - 1].dnskeys
  }

  function LinkVerdict(env: Env, owner: DnsName, dnskeys: seq<ResourceRecord>, links: seq<Link>, i: nat, now: nat)
    : Result<Status, DnssecError>
    requires i < |links|
  {
    ValidateLink(env, OwnerAt(owner, links, i), KeysAt(dnskeys, links, i), links[i], now)
  }

  ghost predicate SecureThrough(env: Env, owner: DnsName, dnskeys: seq<ResourceRecord>, links: seq<Link>, n: nat,
                                now: nat)
    requires n <= |links|
  {
    forall i: nat | i < n :: LinkVerdict(env, owner, dnskeys, links, i, now) == Ok(Secure)
  }

  /** The first link that is not secure decides; if there is none, the target's signature does. */
  lemma {:induction false} LinksVerdict(env: Env, owner: DnsName, dnskeys: seq<ResourceRecord>, links: seq<Link>,
                                        input: ChainInput, n: nat)
    requires n <= |links| && SecureThrough(env, owner, dnskeys, links, n, input.now)
    requires n < |links| ==> LinkVerdict(env, owner, dnskeys, links, n, input.now) != Ok(Secure)
    ensures ValidateLinks(env, owner, dnskeys, links, input)
         == if n < |links| then LinkVerdict(env, owner, dnskeys, links, n, input.now)
            else ValidateSignature(env, OwnerAt(owner, links, n), KeysAt(dnskeys, links, n),
                                   input.target, input.targetSigs, input.now)
    decreases n
  {
    if n > 0 {
      var rest := links[1..];
      var (child, keys) := (links[0].childOwner, links[0].dnskeys);
      assert LinkVerdict(env, owner, dnskeys, links, 0, input.now) == Ok(Secure);
      forall i: nat | i < |rest|
        ensures LinkVerdict(env, child, keys, rest, i, input.now)
             == LinkVerdict(env, owner, dnskeys, links, i + 1, input.now)
      {
      }
      LinksVerdict(env, child, keys, rest, input, n - 1);
    }
  }

  /** How far the links are secure. */
  lemma {:induction false} FirstInsecure(env: Env, owner: DnsName, dnskeys: seq<ResourceRecord>, links: seq<Link>,
                                         now: nat, k: nat) returns (n: nat)
    requires k <= |links| && SecureThrough(env, owner, dnskeys, links, k, now)
    ensures k <= n <= |links| && SecureThrough(env, owner, dnskeys, links, n, now)
    ensures n < |links| ==> LinkVerdict(env, owner, dnskeys, links, n, now) != Ok(Secure)
    decreases |links| - k
  {
    if k == |links| || LinkVerdict(env, owner, dnskeys, links, k, now) != Ok(Secure) {
      n := k;
    } else {
      n := FirstInsecure(env, owner, dnskeys, links, now, k + 1);
    }
  }

  /** A chain is an insecure delegation exactly when a zone has no DS record and what precedes that zone is secure. */
  lemma ChainInsecureIff(env: Env, input: ChainInput)
    ensures ValidateChain(env, input) == Ok(InsecureDelegation) <==>
            || NoDs(input.ds)
            || (&& ValidateZone(env, input.owner, input.ds, input.dnskeys, input.dnskeySigs, input.now) == Ok(Secure)
                && exists n: nat ::
                     && n < |input.links| && SecureThrough(env, input.owner, input.dnskeys, input.links, n, input.now)
                     && NoDs(input.links[n].ds))
  {
    ZoneInsecureIff(env, input.owner, input.ds, input.dnskeys, input.dnskeySigs, input.now);
    if ValidateZone(env, input.owner, input.ds, input.dnskeys, input.dnskeySigs, input.now) == Ok(Secure) {
      var n := FirstInsecure(env, input.owner, input.dnskeys, input.links, input.now, 0);
      LinksVerdict(env, input.owner, input.dnskeys, input.links, input, n);
      InsecureLinksIff(env, input, n);
    }
  }

  lemma InsecureLinksIff(env: Env, input: ChainInput, n: nat)
    requires n <= |input.links| && SecureThrough(env, input.owner, input.dnskeys, input.links, n, input.now)
    requires n < |input.links| ==> LinkVerdict(env, input.owner, input.dnskeys, input.links, n, input.now) != Ok(Secure)
    ensures ValidateLinks(env, input.owner, input.dnskeys, input.links, input) == Ok(InsecureDelegation) <==>
            exists m: nat ::
              && m < |input.links| && SecureThrough(env, input.owner, input.dnskeys, input.links, m, input.now)
              && NoDs(input.links[m].ds)
  {
    var (owner, keys, links) := (input.owner, input.dnskeys, input.links);
    LinksVerdict(env, owner, keys, links, input, n);
    if n < |links| {
      LinkInsecureIff(env, OwnerAt(owner, links, n), KeysAt(keys, links, n), links[n], input.now);
    } else {
      NeverInsecure(env, OwnerAt(owner, links, n), KeysAt(keys, links, n), input.target, input.targetSigs, input.now);
    }
    if m: nat :| m < |links| && SecureThrough(env, owner, keys, links, m, input.now) && NoDs(links[m].ds) {
      LinkInsecureIff(env, OwnerAt(owner, links, m), KeysAt(keys, links, m), links[m], input.now);
      assert LinkVerdict(env, owner, keys, links, m, input.now) != Ok(Secure);
      assert m == n;
    }
  }
}
