/**
 * `Secure` from both sides: the validator accepts exactly the readable chains that form a trust path. Nothing it could
 * accept is refused, apart from records it cannot read.
 */
module DnssecComplete {
  import opened Wrappers
  import opened Dns
  import opened DnssecRecords
  import opened DnssecChain
  import opened DnssecSoundness

  lemma {:induction false} VouchesIff(env: Env, owner: DnsName, ds: seq<ResourceRecord>, key: DnskeyRecord)
    requires ParseDsSet(ds).Ok? && MatchesAny(env, owner, key, ParseDsSet(ds).value).Ok?
    ensures MatchesAny(env, owner, key, ParseDsSet(ds).value) == Ok(true) <==> Vouches(env, owner, ds, key)
  {
    if ds != [] {
      assert forall record :: record in ds <==> record == ds[0] || record in ds[1..];
      if ds[0].rtype == DS {
        var dss := ParseDsSet(ds).value;
        assert dss[1..] == ParseDsSet(ds[1..]).value;
      }
      VouchesIff(env, owner, ds[1..], key);
      assert Vouches(env, owner, ds, key) <==>
             (ds[0].rtype == DS && VouchedBy(env, owner, ds[0].rdata, key)) || Vouches(env, owner, ds[1..], key);
    }
  }

  /** A DNSKEY record that parses and that a DS record vouches for. */
  ghost predicate VouchedRecord(env: Env, owner: DnsName, ds: seq<ResourceRecord>, record: ResourceRecord) {
    record.rtype == DNSKEY && ParseDnskey(record.rdata).Ok? && Vouches(env, owner, ds, ParseDnskey(record.rdata).value)
  }

  lemma {:induction false} MatchedIff(env: Env, owner: DnsName, ds: seq<ResourceRecord>, dnskeys: seq<ResourceRecord>)
    requires ParseDsSet(ds).Ok? && MatchedKeys(env, owner, ParseDsSet(ds).value, dnskeys).Ok?
    ensures forall record :: record in MatchedKeys(env, owner, ParseDsSet(ds).value, dnskeys).value
                             <==> record in dnskeys && VouchedRecord(env, owner, ds, record)
  {
    if dnskeys != [] {
      MatchedIff(env, owner, ds, dnskeys[1..]);
      assert forall record :: record in dnskeys <==> record == dnskeys[0] || record in dnskeys[1..];
      if dnskeys[0].rtype == DNSKEY {
        VouchesIff(env, owner, ds, ParseDnskey(dnskeys[0].rdata).value);
      }
    }
  }

  predicate IsKey(record: ResourceRecord) {
    record.rtype == DNSKEY && ParseDnskey(record.rdata).Ok?
  }

  /** Every DS record that names the key uses a known digest. */
  ghost predicate DigestsKnown(env: Env, owner: DnsName, ds: seq<ResourceRecord>, key: DnskeyRecord) {
    forall record <- ds | record.rtype == DS && ParseDs(record.rdata).Ok? && Names(ParseDs(record.rdata).value, key) ::
      ParseDs(record.rdata).value.digestType in {1, 2, 4}
  }

  lemma {:induction false} MatchesAnyOkIff(env: Env, owner: DnsName, ds: seq<ResourceRecord>, key: DnskeyRecord)
    requires ParseDsSet(ds).Ok?
    ensures MatchesAny(env, owner, key, ParseDsSet(ds).value).Ok? <==> DigestsKnown(env, owner, ds, key)
  {
    if ds != [] {
      assert forall record :: record in ds <==> record == ds[0] || record in ds[1..];
      MatchesAnyOkIff(env, owner, ds[1..], key);
      if ds[0].rtype == DS {
        var dss := ParseDsSet(ds).value;
        assert dss[1..] == ParseDsSet(ds[1..]).value;
      }
    }
  }

  lemma {:induction false} MatchedOkIff(env: Env, owner: DnsName, ds: seq<ResourceRecord>, dnskeys: seq<ResourceRecord>)
    requires ParseDsSet(ds).Ok? && ParseKeySet(dnskeys).Ok?
    ensures MatchedKeys(env, owner, ParseDsSet(ds).value, dnskeys).Ok? <==>
            forall record <- dnskeys | IsKey(record) :: DigestsKnown(env, owner, ds, ParseDnskey(record.rdata).value)
  {
    if dnskeys != [] {
      assert forall record :: record in dnskeys <==> record == dnskeys[0] || record in dnskeys[1..];
      MatchedOkIff(env, owner, ds, dnskeys[1..]);
      if dnskeys[0].rtype == DNSKEY {
        MatchesAnyOkIff(env, owner, ds, ParseDnskey(dnskeys[0].rdata).value);
        assert IsKey(dnskeys[0]);
      }
    }
  }

  lemma {:induction false} KeySetParses(keys: seq<ResourceRecord>)
    requires forall record <- keys | record.rtype == DNSKEY :: ParseDnskey(record.rdata).Ok?
    ensures ParseKeySet(keys).Ok?
  {
    if keys != [] {
      assert keys[0] in keys && forall record <- keys[1..] :: record in keys;
      KeySetParses(keys[1..]);
    }
  }

  lemma {:induction false} NothingVouches(env: Env, owner: DnsName, ds: seq<ResourceRecord>, key: DnskeyRecord)
    requires ParseDsSet(ds) == Ok([])
    ensures !Vouches(env, owner, ds, key)
  {
    if ds != [] {
      assert forall record :: record in ds <==> record == ds[0] || record in ds[1..];
      NothingVouches(env, owner, ds[1..], key);
    }
  }

  // ---- One zone ----

  ghost predicate SigsReadable(env: Env, rrset: seq<ResourceRecord>, sigs: seq<ResourceRecord>) {
    rrset != [] && ParseSigSet(env, sigs, rrset[0].name, rrset[0].rclass).Ok?
  }

  /** All DS, DNSKEY and RRSIG records parse, and no DS that names a key uses an unknown digest. */
  ghost predicate ZoneReadable(env: Env, owner: DnsName, ds: seq<ResourceRecord>, dnskeys: seq<ResourceRecord>,
                               sigs: seq<ResourceRecord>)
  {
    && ParseDsSet(ds).Ok? && ParseKeySet(dnskeys).Ok?
    && (forall record <- dnskeys | IsKey(record) :: DigestsKnown(env, owner, ds, ParseDnskey(record.rdata).value))
    && SigsReadable(env, dnskeys, sigs)
  }

  lemma KeyInMatched(env: Env, owner: DnsName, ds: seq<ResourceRecord>, dnskeys: seq<ResourceRecord>,
                     matched: seq<ResourceRecord>, key: DnskeyRecord)
    requires forall record :: record in matched <==> record in dnskeys && VouchedRecord(env, owner, ds, record)
    ensures KeyIn(key, matched) <==> KeyIn(key, dnskeys) && Vouches(env, owner, ds, key)
  {
  }

  lemma SignedByMatchedIff(env: Env, owner: DnsName, ds: seq<ResourceRecord>, dnskeys: seq<ResourceRecord>,
                           matched: seq<ResourceRecord>, sigs: seq<ResourceRecord>, now: nat)
    requires forall record :: record in matched <==> record in dnskeys && VouchedRecord(env, owner, ds, record)
    ensures SignedUnder(env, owner, matched, dnskeys, sigs, now) <==> ZoneTrusted(env, owner, ds, dnskeys, sigs, now)
  {
    if key, rrsig :|
      Signs(env, owner, key, dnskeys, rrsig, now) && KeyIn(key, matched) && SigIn(env, rrsig, sigs, dnskeys) {
      KeyInMatched(env, owner, ds, dnskeys, matched, key);
    }
    if key, rrsig :|
      && Signs(env, owner, key, dnskeys, rrsig, now)
      && KeyIn(key, dnskeys) && Vouches(env, owner, ds, key) && SigIn(env, rrsig, sigs, dnskeys) {
      KeyInMatched(env, owner, ds, dnskeys, matched, key);
    }
  }

  /** What the delegation check hands on, when everything parses. */
  lemma DelegationOutcome(env: Env, owner: DnsName, ds: seq<ResourceRecord>, dnskeys: seq<ResourceRecord>)
    returns (matched: seq<ResourceRecord>)
    requires ParseDsSet(ds).Ok? && ParseKeySet(dnskeys).Ok?
    requires MatchedKeys(env, owner, ParseDsSet(ds).value, dnskeys).Ok?
    ensures forall record :: record in matched <==> record in dnskeys && VouchedRecord(env, owner, ds, record)
    ensures ParseKeySet(matched).Ok?
    ensures DsAuthenticatedKeys(env, owner, ds, dnskeys)
         == Ok(if ParseDsSet(ds).value == [] then (InsecureDelegation, [])
               else if matched == [] then (Bogus, [])
               else (Secure, matched))
    ensures ParseDsSet(ds).value == [] ==> matched == []
  {
    matched := MatchedKeys(env, owner, ParseDsSet(ds).value, dnskeys).value;
    MatchedIff(env, owner, ds, dnskeys);
    KeySetParses(matched);
    if ParseDsSet(ds).value == [] && matched != [] {
      assert matched[0] in matched;
      NothingVouches(env, owner, ds, ParseDnskey(matched[0].rdata).value);
    }
  }

  lemma NoKeysNoSignature(env: Env, signer: DnsName, rrset: seq<ResourceRecord>, sigs: seq<ResourceRecord>, now: nat)
    ensures !SignedUnder(env, signer, [], rrset, sigs, now)
  {
  }

  /** The delegation check and the key set signature together accept exactly the trusted readable zones. */
  lemma KeySetSecureIff(env: Env, owner: DnsName, ds: seq<ResourceRecord>, dnskeys: seq<ResourceRecord>,
                        sigs: seq<ResourceRecord>, now: nat)
    ensures ValidateZone(env, owner, ds, dnskeys, sigs, now) == Ok(Secure) <==>
            ZoneReadable(env, owner, ds, dnskeys, sigs) && ZoneTrusted(env, owner, ds, dnskeys, sigs, now)
  {
    if ParseDsSet(ds).Ok? && ParseKeySet(dnskeys).Ok? {
      MatchedOkIff(env, owner, ds, dnskeys);
    }
    if ParseDsSet(ds).Ok? && ParseKeySet(dnskeys).Ok? && MatchedKeys(env, owner, ParseDsSet(ds).value, dnskeys).Ok? {
      var matched := DelegationOutcome(env, owner, ds, dnskeys);
      SecureIffSigned(env, owner, matched, dnskeys, sigs, now);
      SignedByMatchedIff(env, owner, ds, dnskeys, matched, sigs, now);
      if matched == [] {
        NoKeysNoSignature(env, owner, dnskeys, sigs, now);
      }
    }
  }

  // ---- Chains ----

  /** Everything below a zone that the validator has to read. */
  ghost predicate PathReadable(env: Env, dnskeys: seq<ResourceRecord>, links: seq<Link>, input: ChainInput)
    decreases |links|
  {
    && ParseKeySet(dnskeys).Ok?
    && if links == [] then SigsReadable(env, input.target, input.targetSigs)
       else
         var link := links[0];
         && SigsReadable(env, link.ds, link.dsSigs)
         && ZoneReadable(env, link.childOwner, link.ds, link.dnskeys, link.dnskeySigs)
         && PathReadable(env, link.dnskeys, links[1..], input)
  }

  /** A link is the parent's signature on the DS set and the child's own validation. */
  lemma LinkSplits(env: Env, owner: DnsName, dnskeys: seq<ResourceRecord>, link: Link, now: nat)
    ensures ValidateLink(env, owner, dnskeys, link, now) == Ok(Secure) <==>
            && ValidateSignature(env, owner, dnskeys, link.ds, link.dsSigs, now) == Ok(Secure)
            && ValidateZone(env, link.childOwner, link.ds, link.dnskeys, link.dnskeySigs, now) == Ok(Secure)
  {
  }

  lemma {:induction false} LinksSecureIff(env: Env, owner: DnsName, dnskeys: seq<ResourceRecord>, links: seq<Link>,
                                          input: ChainInput)
    ensures ValidateLinks(env, owner, dnskeys, links, input) == Ok(Secure) <==>
            PathReadable(env, dnskeys, links, input) && TrustPath(env, owner, dnskeys, links, input)
    decreases |links|
  {
    if links == [] {
      SecureIffSigned(env, owner, dnskeys, input.target, input.targetSigs, input.now);
    } else {
      var link := links[0];
      LinkSplits(env, owner, dnskeys, link, input.now);
      SecureIffSigned(env, owner, dnskeys, link.ds, link.dsSigs, input.now);
      KeySetSecureIff(env, link.childOwner, link.ds, link.dnskeys, link.dnskeySigs, input.now);
      LinksSecureIff(env, link.childOwner, link.dnskeys, links[1..], input);
    }
  }

  /** A chain of any length is secure exactly when it can be read and is a trust path from the DS set to the target. */
  lemma ChainSecureIff(env: Env, input: ChainInput)
    ensures ValidateChain(env, input) == Ok(Secure) <==>
            && ZoneReadable(env, input.owner, input.ds, input.dnskeys, input.dnskeySigs)
            && ZoneTrusted(env, input.owner, input.ds, input.dnskeys, input.dnskeySigs, input.now)
            && PathReadable(env, input.dnskeys, input.links, input)
            && TrustPath(env, input.owner, input.dnskeys, input.links, input)
  {
    KeySetSecureIff(env, input.owner, input.ds, input.dnskeys, input.dnskeySigs, input.now);
    LinksSecureIff(env, input.owner, input.dnskeys, input.links, input);
  }
}
