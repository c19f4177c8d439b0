/**
 * What `Secure` means. First in terms of the records: a trust path of signatures, each valid at the given time.
 * Then in terms of honest zones: if the zones' keys sign only what the zones publish, the target was published.
 */
module DnssecSoundness {
  import opened Wrappers
  import opened Dns
  import opened DnssecRecords
  import opened SignedData
  import opened SignedDataUnique
  import opened DnssecChain

  // ---- One signature ----

  /** `key` of zone `signer` made the signature `rrsig` over `rrset`, and it is within its validity at `now`. */
  ghost predicate Signs(env: Env, signer: DnsName, key: DnskeyRecord, rrset: seq<ResourceRecord>, rrsig: RrsigRecord,
                        now: nat)
  {
    && rrset != []
    && rrsig.typeCovered == rrset[0].rtype && rrsig.signerName == signer
    && rrsig.algorithm == key.algorithm && rrsig.keyTag == key.KeyTag()
    && key.IsZoneKey() && key.algorithm in {5, 7, 8, 10, 13, 14, 15}
    && rrsig.labels == |rrset[0].name|
    && rrsig.inception <= now <= rrsig.expiration
    && env.malformed(key.algorithm, key.publicKey, rrsig.signature).None?
    && SignedBytes(env, rrset, rrsig, now).Ok?
    && env.verifies(key.algorithm, key.publicKey, SignedBytes(env, rrset, rrsig, now).value, rrsig.signature)
  }

  ghost predicate KeyIn(key: DnskeyRecord, dnskeys: seq<ResourceRecord>) {
    exists record <- dnskeys :: record.rtype == DNSKEY && ParseDnskey(record.rdata) == Ok(key)
  }

  ghost predicate SigIn(env: Env, rrsig: RrsigRecord, sigs: seq<ResourceRecord>, rrset: seq<ResourceRecord>)
    requires rrset != []
  {
    exists record <- sigs ::
      && record.rtype == RRSIG && record.name == rrset[0].name && record.rclass == rrset[0].rclass
      && ParseRrsig(env, record.rdata) == Ok(rrsig)
  }

  ghost predicate SignedUnder(env: Env, signer: DnsName, dnskeys: seq<ResourceRecord>, rrset: seq<ResourceRecord>,
                              sigs: seq<ResourceRecord>, now: nat)
  {
    exists key, rrsig ::
      Signs(env, signer, key, rrset, rrsig, now) && KeyIn(key, dnskeys) && SigIn(env, rrsig, sigs, rrset)
  }

  lemma {:induction false} ParsedKeys(dnskeys: seq<ResourceRecord>)
    requires ParseKeySet(dnskeys).Ok?
    ensures forall key :: key in ParseKeySet(dnskeys).value <==> KeyIn(key, dnskeys)
  {
    if dnskeys != [] {
      ParsedKeys(dnskeys[1..]);
      assert forall record :: record in dnskeys <==> record == dnskeys[0] || record in dnskeys[1..];
    }
  }

  lemma {:induction false} ParsedSigs(env: Env, sigs: seq<ResourceRecord>, rrset: seq<ResourceRecord>)
    requires rrset != [] && ParseSigSet(env, sigs, rrset[0].name, rrset[0].rclass).Ok?
    ensures forall rrsig ::
              rrsig in ParseSigSet(env, sigs, rrset[0].name, rrset[0].rclass).value <==> SigIn(env, rrsig, sigs, rrset)
  {
    if sigs != [] {
      ParsedSigs(env, sigs[1..], rrset);
      assert forall record :: record in sigs <==> record == sigs[0] || record in sigs[1..];
    }
  }

  lemma VerifiedIffSigns(env: Env, signer: DnsName, rrset: seq<ResourceRecord>, rrsig: RrsigRecord, key: DnskeyRecord,
                         now: nat)
    requires rrset != [] && rrsig.typeCovered == rrset[0].rtype && rrsig.signerName == signer
    ensures VerifyRrsig(env, rrset, rrsig, key, now) == Ok(true) <==> Signs(env, signer, key, rrset, rrsig, now)
  {
  }

  lemma {:induction false} KeysTried(env: Env, signer: DnsName, rrset: seq<ResourceRecord>, rrsig: RrsigRecord,
                                     keys: seq<DnskeyRecord>, now: nat, deferred: Option<DnssecError>)
    requires rrset != [] && rrsig.typeCovered == rrset[0].rtype && rrsig.signerName == signer
    ensures TryKeys(env, rrset, rrsig, keys, now, deferred) == Verified <==>
            exists key <- keys :: Signs(env, signer, key, rrset, rrsig, now)
    decreases |keys|
  {
    if keys != [] {
      assert keys == [keys[0]] + keys[1..];
      VerifiedIffSigns(env, signer, rrset, rrsig, keys[0], now);
      KeysTried(env, signer, rrset, rrsig, keys[1..], now, deferred);
      match VerifyRrsig(env, rrset, rrsig, keys[0], now)
      case Ok(_) =>
      case Err(e) => KeysTried(env, signer, rrset, rrsig, keys[1..], now, Defer(deferred, e));
    }
  }

  lemma {:induction false} SigsTried(env: Env, signer: DnsName, rrset: seq<ResourceRecord>, rrsigs: seq<RrsigRecord>,
                                     keys: seq<DnskeyRecord>, now: nat, deferred: Option<DnssecError>)
    requires rrset != []
    ensures TrySigs(env, signer, rrset, rrsigs, keys, now, deferred) == Verified <==>
            exists rrsig <- rrsigs, key <- keys :: Signs(env, signer, key, rrset, rrsig, now)
    decreases |rrsigs|
  {
    if rrsigs != [] {
      assert forall rrsig :: rrsig in rrsigs <==> rrsig == rrsigs[0] || rrsig in rrsigs[1..];
      if rrsigs[0].typeCovered != rrset[0].rtype || rrsigs[0].signerName != signer {
        SigsTried(env, signer, rrset, rrsigs[1..], keys, now, deferred);
      } else {
        KeysTried(env, signer, rrset, rrsigs[0], keys, now, deferred);
        var attempt := TryKeys(env, rrset, rrsigs[0], keys, now, deferred);
        if attempt.Unverified? {
          SigsTried(env, signer, rrset, rrsigs[1..], keys, now, attempt.deferred);
        }
      }
    }
  }

  /** A validated RRset is one that some listed signature of some listed key covers, among records that all parse. */
  lemma SecureIffSigned(env: Env, signer: DnsName, dnskeys: seq<ResourceRecord>, rrset: seq<ResourceRecord>,
                        sigs: seq<ResourceRecord>, now: nat)
    ensures ValidateSignature(env, signer, dnskeys, rrset, sigs, now) == Ok(Secure) <==>
            && rrset != []
            && ParseKeySet(dnskeys).Ok?
            && ParseSigSet(env, sigs, rrset[0].name, rrset[0].rclass).Ok?
            && SignedUnder(env, signer, dnskeys, rrset, sigs, now)
  {
    if rrset != [] && ParseKeySet(dnskeys).Ok? && ParseSigSet(env, sigs, rrset[0].name, rrset[0].rclass).Ok? {
      var keys, rrsigs := ParseKeySet(dnskeys).value, ParseSigSet(env, sigs, rrset[0].name, rrset[0].rclass).value;
      ParsedKeys(dnskeys);
      ParsedSigs(env, sigs, rrset);
      SigsTried(env, signer, rrset, rrsigs, keys, now, None);
      if SignedUnder(env, signer, dnskeys, rrset, sigs, now) {
        var key, rrsig :|
          Signs(env, signer, key, rrset, rrsig, now) && KeyIn(key, dnskeys) && SigIn(env, rrsig, sigs, rrset);
        assert key in keys && rrsig in rrsigs;
      }
    }
  }

  // ---- Delegations ----

  /** Some DS record of the set is the digest of this key under this owner name. */
  ghost predicate Vouches(env: Env, owner: DnsName, ds: seq<ResourceRecord>, key: DnskeyRecord) {
    exists record <- ds :: record.rtype == DS && VouchedBy(env, owner, record.rdata, key)
  }

  ghost predicate VouchedBy(env: Env, owner: DnsName, rdata: seq<Byte>, key: DnskeyRecord) {
    && ParseDs(rdata).Ok?
    && var ds := ParseDs(rdata).value;
       && Names(ds, key) && ds.digestType in {1, 2, 4}
       && env.digest(ds.digestType, EncodeName(owner) + key.rdata) == ds.digest
  }

  /** The DS record names the key: a zone key of its algorithm and tag. */
  predicate Names(ds: DsRecord, key: DnskeyRecord) {
    key.IsZoneKey() && key.algorithm == ds.algorithm && key.KeyTag() == ds.keyTag
  }

  /** A DS record matches a key it names by digest; it is in error when it names the key by an unknown digest. */
  lemma VerifyDsIff(env: Env, owner: DnsName, key: DnskeyRecord, ds: DsRecord)
    ensures var r := VerifyDs(env, owner, key, ds);
            && (r == Err(UnsupportedDigest) <==> Names(ds, key) && ds.digestType !in {1, 2, 4})
            && (r == Ok(true) <==>
                && Names(ds, key) && ds.digestType in {1, 2, 4}
                && env.digest(ds.digestType, EncodeName(owner) + key.rdata) == ds.digest)
            && (r.Ok? || r == Err(UnsupportedDigest))
  {
  }

  /** The key set is signed, under its owner's name, by one of its keys that a DS vouches for. */
  ghost predicate ZoneTrusted(env: Env, owner: DnsName, ds: seq<ResourceRecord>, dnskeys: seq<ResourceRecord>,
                              sigs: seq<ResourceRecord>, now: nat)
  {
    exists key, rrsig ::
      && Signs(env, owner, key, dnskeys, rrsig, now)
      && KeyIn(key, dnskeys) && Vouches(env, owner, ds, key) && SigIn(env, rrsig, sigs, dnskeys)
  }

  lemma {:induction false} ParsedDs(env: Env, owner: DnsName, ds: seq<ResourceRecord>, key: DnskeyRecord)
    requires ParseDsSet(ds).Ok? && MatchesAny(env, owner, key, ParseDsSet(ds).value) == Ok(true)
    ensures Vouches(env, owner, ds, key)
  {
    assert forall record :: record in ds <==> record == ds[0] || record in ds[1..];
    if ds[0].rtype != DS {
      ParsedDs(env, owner, ds[1..], key);
    } else {
      var dss := ParseDsSet(ds).value;
      assert dss[1..] == ParseDsSet(ds[1..]).value;
      if VerifyDs(env, owner, key, dss[0]) != Ok(true) {
        ParsedDs(env, owner, ds[1..], key);
      }
    }
  }

  /** Keys of the key set, each vouched for by a DS record. */
  ghost predicate AllVouched(env: Env, owner: DnsName, ds: seq<ResourceRecord>, dnskeys: seq<ResourceRecord>,
                             keys: seq<ResourceRecord>)
  {
    forall record <- keys ::
      && record in dnskeys && record.rtype == DNSKEY
      && ParseDnskey(record.rdata).Ok? && Vouches(env, owner, ds, ParseDnskey(record.rdata).value)
  }

  lemma {:induction false} MatchedAreVouched(env: Env, owner: DnsName, ds: seq<ResourceRecord>,
                                             dnskeys: seq<ResourceRecord>)
    requires ParseDsSet(ds).Ok? && MatchedKeys(env, owner, ParseDsSet(ds).value, dnskeys).Ok?
    ensures AllVouched(env, owner, ds, dnskeys, MatchedKeys(env, owner, ParseDsSet(ds).value, dnskeys).value)
  {
    if dnskeys != [] {
      MatchedAreVouched(env, owner, ds, dnskeys[1..]);
      if dnskeys[0].rtype == DNSKEY {
        var key := ParseDnskey(dnskeys[0].rdata).value;
        if MatchesAny(env, owner, key, ParseDsSet(ds).value) == Ok(true) {
          ParsedDs(env, owner, ds, key);
        }
      }
    }
  }

  lemma VouchedKey(env: Env, owner: DnsName, ds: seq<ResourceRecord>, dnskeys: seq<ResourceRecord>,
                   keys: seq<ResourceRecord>, key: DnskeyRecord)
    requires AllVouched(env, owner, ds, dnskeys, keys) && KeyIn(key, keys)
    ensures Vouches(env, owner, ds, key) && KeyIn(key, dnskeys)
  {
  }

  lemma ZoneKeysTrusted(env: Env, owner: DnsName, ds: seq<ResourceRecord>, dnskeys: seq<ResourceRecord>,
                        keys: seq<ResourceRecord>, sigs: seq<ResourceRecord>, now: nat)
    requires DsAuthenticatedKeys(env, owner, ds, dnskeys) == Ok((Secure, keys))
    requires ValidateSignature(env, owner, keys, dnskeys, sigs, now) == Ok(Secure)
    ensures ZoneTrusted(env, owner, ds, dnskeys, sigs, now)
  {
    MatchedAreVouched(env, owner, ds, dnskeys);
    SecureIffSigned(env, owner, keys, dnskeys, sigs, now);
    SignedByVouched(env, owner, ds, dnskeys, keys, sigs, now);
  }

  lemma SignedByVouched(env: Env, owner: DnsName, ds: seq<ResourceRecord>, dnskeys: seq<ResourceRecord>,
                        keys: seq<ResourceRecord>, sigs: seq<ResourceRecord>, now: nat)
    requires AllVouched(env, owner, ds, dnskeys, keys) && SignedUnder(env, owner, keys, dnskeys, sigs, now)
    ensures ZoneTrusted(env, owner, ds, dnskeys, sigs, now)
  {
    var key, rrsig :|
      Signs(env, owner, key, dnskeys, rrsig, now) && KeyIn(key, keys) && SigIn(env, rrsig, sigs, dnskeys);
    VouchedKey(env, owner, ds, dnskeys, keys, key);
  }

  // ---- The trust path ----

  /**
   * From a zone with a trusted key set down to the target: each DS set is signed by a key of the zone above, under
   * that zone's name; each key set is trusted through its DS set; the target is signed by a key of the last zone.
   */
  ghost predicate TrustPath(env: Env, owner: DnsName, dnskeys: seq<ResourceRecord>, links: seq<Link>, input: ChainInput)
    decreases |links|
  {
    if links == [] then SignedUnder(env, owner, dnskeys, input.target, input.targetSigs, input.now)
    else
      var link := links[0];
      && SignedUnder(env, owner, dnskeys, link.ds, link.dsSigs, input.now)
      && ZoneTrusted(env, link.childOwner, link.ds, link.dnskeys, link.dnskeySigs, input.now)
      && TrustPath(env, link.childOwner, link.dnskeys, links[1..], input)
  }

  lemma LinkSound(env: Env, owner: DnsName, dnskeys: seq<ResourceRecord>, link: Link, now: nat)
    requires ValidateLink(env, owner, dnskeys, link, now) == Ok(Secure)
    ensures SignedUnder(env, owner, dnskeys, link.ds, link.dsSigs, now)
    ensures ZoneTrusted(env, link.childOwner, link.ds, link.dnskeys, link.dnskeySigs, now)
  {
    var keys := DsAuthenticatedKeys(env, link.childOwner, link.ds, link.dnskeys).value.1;
    SecureIffSigned(env, owner, dnskeys, link.ds, link.dsSigs, now);
    ZoneKeysTrusted(env, link.childOwner, link.ds, link.dnskeys, keys, link.dnskeySigs, now);
  }

  lemma {:induction false} LinksSound(env: Env, owner: DnsName, dnskeys: seq<ResourceRecord>, links: seq<Link>,
                                      input: ChainInput)
    requires ValidateLinks(env, owner, dnskeys, links, input) == Ok(Secure)
    ensures TrustPath(env, owner, dnskeys, links, input)
    decreases |links|
  {
    if links == [] {
      SecureIffSigned(env, owner, dnskeys, input.target, input.targetSigs, input.now);
    } else {
      LinkSound(env, owner, dnskeys, links[0], input.now);
      LinksSound(env, links[0].childOwner, links[0].dnskeys, links[1..], input);
    }
  }

  /** `Secure` over any number of links is a trust path from the given DS set to the target. */
  lemma ChainSound(env: Env, input: ChainInput)
    requires ValidateChain(env, input) == Ok(Secure)
    ensures ZoneTrusted(env, input.owner, input.ds, input.dnskeys, input.dnskeySigs, input.now)
    ensures TrustPath(env, input.owner, input.dnskeys, input.links, input)
  {
    var keys := DsAuthenticatedKeys(env, input.owner, input.ds, input.dnskeys).value.1;
    ZoneKeysTrusted(env, input.owner, input.ds, input.dnskeys, keys, input.dnskeySigs, input.now);
    LinksSound(env, input.owner, input.dnskeys, input.links, input);
  }

  // ---- Honest zones ----

  /** Which zones are honest, which key RDATA belong to a zone, and which RRset contents a zone publishes. */
  datatype World = World(
    honest: DnsName -> bool,
    genuine: (DnsName, seq<Byte>) -> bool,
    published: (DnsName, Content) -> bool)

  /** The record is what its RDATA says, so that algorithm and public key belong to the RDATA. */
  predicate Faithful(key: DnskeyRecord) {
    ParseDnskey(key.rdata) == Ok(key)
  }

  /**
   * A genuine key of an honest zone verifies only bytes that the zone signed for content it publishes. Nothing is
   * assumed of other zones and other keys: they may sign and publish anything.
   */
  ghost predicate Unforgeable(env: Env, world: World) {
    forall zone: DnsName, key: DnskeyRecord, data: seq<Byte>, signature: seq<Byte>
      | && world.honest(zone) && Faithful(key) && world.genuine(zone, key.rdata)
        && env.verifies(key.algorithm, key.publicKey, data, signature)
      :: SignedFor(env, world, zone, data)
  }

  ghost predicate SignedFor(env: Env, world: World, zone: DnsName, data: seq<Byte>) {
    exists rrset, rrsig: RrsigRecord, at ::
      && rrsig.WellFormed()
      && SignedBytes(env, rrset, rrsig, at) == Ok(data)
      && world.published(zone, ContentOf(CanonicalRrset(env, rrset, rrsig).value))
  }

  /** DNSKEY sets that an honest zone publishes hold only its own keys. */
  ghost predicate HonestKeySets(world: World) {
    forall zone: DnsName, content: Content | world.honest(zone) && world.published(zone, content) ::
      HonestKeySet(world, zone, content)
  }

  ghost predicate HonestKeySet(world: World, zone: DnsName, content: Content) {
    content.rtype == DNSKEY ==> forall rdata <- content.rdatas :: world.genuine(zone, rdata)
  }

  /** The DS records vouch for no key at this owner but its genuine ones. */
  ghost predicate VouchesGenuine(env: Env, world: World, content: Content, owner: DnsName) {
    content.rtype == DS ==>
      forall rdata <- content.rdatas, key: DnskeyRecord
        | Faithful(key) && VouchedBy(env, owner, rdata, key) :: world.genuine(owner, key.rdata)
  }

  /** DS sets that an honest zone publishes vouch only for genuine keys at every honest zone. */
  ghost predicate HonestDsSets(env: Env, world: World) {
    forall zone: DnsName, content: Content, owner: DnsName
      | world.honest(zone) && world.published(zone, content) && world.honest(owner) ::
        VouchesGenuine(env, world, content, owner)
  }

  /** What the zone above publishes as the DS set of the link vouches only for genuine keys of the child. */
  ghost predicate DelegationSound(env: Env, world: World, zone: DnsName, link: Link) {
    forall content: Content | world.published(zone, content) && Describes(env, content, link.ds) ::
      VouchesGenuine(env, world, content, link.childOwner)
  }

  ghost predicate DelegationsSound(env: Env, world: World, owner: DnsName, links: seq<Link>)
    decreases |links|
  {
    links != [] ==>
      && DelegationSound(env, world, owner, links[0])
      && DelegationsSound(env, world, links[0].childOwner, links[1..])
  }

  /** The zones on a chain. */
  ghost predicate HonestChain(world: World, owner: DnsName, links: seq<Link>) {
    world.honest(owner) && forall link <- links :: world.honest(link.childOwner)
  }

  /** The starting DS set, which comes from outside DNS, vouches only for keys of the first zone. */
  ghost predicate HonestAnchor(env: Env, world: World, owner: DnsName, ds: seq<ResourceRecord>) {
    forall key: DnskeyRecord | Faithful(key) && Vouches(env, owner, ds, key) :: world.genuine(owner, key.rdata)
  }

  ghost predicate AllGenuine(world: World, owner: DnsName, dnskeys: seq<ResourceRecord>) {
    forall record <- dnskeys | record.rtype == DNSKEY :: world.genuine(owner, record.rdata)
  }

  /** The content has the owner, type and class of the RRset and exactly its canonical RDATA. */
  ghost predicate Describes(env: Env, content: Content, rrset: seq<ResourceRecord>) {
    && rrset != []
    && content.owner == rrset[0].name && content.rtype == rrset[0].rtype && content.rclass == rrset[0].rclass
    && (forall record <- rrset :: record.rtype == content.rtype)
    && (forall record <- rrset :: InContent(env, content, record))
    && (forall rdata <- content.rdatas :: exists record <- rrset :: CanonicalRdata(env, record) == Ok(rdata))
  }

  ghost predicate InContent(env: Env, content: Content, record: ResourceRecord) {
    CanonicalRdata(env, record).Ok? && CanonicalRdata(env, record).value in content.rdatas
  }

  lemma CanonicalDescribes(env: Env, rrset: seq<ResourceRecord>, rrsig: RrsigRecord)
    requires CanonicalRrset(env, rrset, rrsig).Ok? && rrsig.labels == |rrset[0].name|
    ensures Describes(env, ContentOf(CanonicalRrset(env, rrset, rrsig).value), rrset)
  {
    OwnerFixed(env, rrset, rrsig);
    var c := CanonicalRrset(env, rrset, rrsig).value;
    RecordsCount(env, rrset[0], c.owner, rrsig, rrset);
    forall record <- rrset ensures InContent(env, ContentOf(c), record) {
      var i :| 0 <= i < |rrset| && rrset[i] == record;
      assert Ok(c.rdatas[i]) == CanonicalRecord(env, rrset[0], c.owner, rrsig, record);
      assert c.rdatas[i] in c.rdatas;
    }
    forall rdata <- ContentOf(c).rdatas ensures exists record <- rrset :: CanonicalRdata(env, record) == Ok(rdata) {
      var i :| 0 <= i < |c.rdatas| && c.rdatas[i] == rdata;
      assert Ok(c.rdatas[i]) == CanonicalRecord(env, rrset[0], c.owner, rrsig, rrset[i]);
      assert rrset[i] in rrset && CanonicalRdata(env, rrset[i]) == Ok(rdata);
    }
  }

  lemma OpaqueRdataIn(env: Env, content: Content, rrset: seq<ResourceRecord>, record: ResourceRecord)
    requires Describes(env, content, rrset) && record in rrset && (record.rtype == DS || record.rtype == DNSKEY)
    ensures content.rtype == record.rtype && record.rdata in content.rdatas
  {
    assert InContent(env, content, record);
  }

  /** What a genuine key signs, its zone published. */
  lemma SignedIsPublished(env: Env, world: World, zone: DnsName, key: DnskeyRecord, rrset: seq<ResourceRecord>,
                          rrsig: RrsigRecord, now: nat) returns (content: Content)
    requires Unforgeable(env, world) && world.honest(zone)
    requires Faithful(key) && world.genuine(zone, key.rdata) && rrsig.WellFormed()
    requires Signs(env, zone, key, rrset, rrsig, now)
    ensures world.published(zone, content) && Describes(env, content, rrset)
  {
    var data := SignedBytes(env, rrset, rrsig, now).value;
    assert SignedFor(env, world, zone, data);
    var rrset', rrsig': RrsigRecord, at :|
      && rrsig'.WellFormed()
      && SignedBytes(env, rrset', rrsig', at) == Ok(data)
      && world.published(zone, ContentOf(CanonicalRrset(env, rrset', rrsig').value));
    SignedBytesIffContent(env, rrset, rrsig, now, rrset', rrsig', at);
    CanonicalDescribes(env, rrset, rrsig);
    content := ContentOf(CanonicalRrset(env, rrset, rrsig).value);
  }

  lemma SignedUnderGenuine(env: Env, world: World, zone: DnsName, dnskeys: seq<ResourceRecord>,
                           rrset: seq<ResourceRecord>, sigs: seq<ResourceRecord>, now: nat) returns (content: Content)
    requires Unforgeable(env, world) && world.honest(zone) && AllGenuine(world, zone, dnskeys)
    requires SignedUnder(env, zone, dnskeys, rrset, sigs, now)
    ensures world.published(zone, content) && Describes(env, content, rrset)
  {
    var key, rrsig :| Signs(env, zone, key, rrset, rrsig, now) && KeyIn(key, dnskeys) && SigIn(env, rrsig, sigs, rrset);
    content := SignedIsPublished(env, world, zone, key, rrset, rrsig, now);
  }

  lemma TrustedZoneIsGenuine(env: Env, world: World, owner: DnsName, ds: seq<ResourceRecord>,
                             dnskeys: seq<ResourceRecord>, sigs: seq<ResourceRecord>, now: nat)
    requires Unforgeable(env, world) && HonestKeySets(world) && world.honest(owner)
    requires HonestAnchor(env, world, owner, ds) && ZoneTrusted(env, owner, ds, dnskeys, sigs, now)
    ensures AllGenuine(world, owner, dnskeys)
  {
    var key, rrsig :|
      && Signs(env, owner, key, dnskeys, rrsig, now)
      && KeyIn(key, dnskeys) && Vouches(env, owner, ds, key) && SigIn(env, rrsig, sigs, dnskeys);
    var content := SignedIsPublished(env, world, owner, key, dnskeys, rrsig, now);
    assert HonestKeySet(world, owner, content);
    forall record <- dnskeys | record.rtype == DNSKEY ensures world.genuine(owner, record.rdata) {
      OpaqueRdataIn(env, content, dnskeys, record);
    }
  }

  lemma SignedDsIsAnchor(env: Env, world: World, zone: DnsName, dnskeys: seq<ResourceRecord>, link: Link, now: nat)
    requires Unforgeable(env, world) && world.honest(zone) && AllGenuine(world, zone, dnskeys)
    requires DelegationSound(env, world, zone, link)
    requires SignedUnder(env, zone, dnskeys, link.ds, link.dsSigs, now)
    ensures HonestAnchor(env, world, link.childOwner, link.ds)
  {
    var content := SignedUnderGenuine(env, world, zone, dnskeys, link.ds, link.dsSigs, now);
    assert VouchesGenuine(env, world, content, link.childOwner);
    forall vouched: DnskeyRecord | Faithful(vouched) && Vouches(env, link.childOwner, link.ds, vouched)
      ensures world.genuine(link.childOwner, vouched.rdata)
    {
      var record :| record in link.ds && record.rtype == DS && VouchedBy(env, link.childOwner, record.rdata, vouched);
      OpaqueRdataIn(env, content, link.ds, record);
    }
  }

  function LastZone(owner: DnsName, links: seq<Link>): DnsName
    decreases |links|
  {
    if links == [] then owner else LastZone(links[0].childOwner, links[1..])
  }

  lemma {:induction false} PathIsPublished(env: Env, world: World, owner: DnsName, dnskeys: seq<ResourceRecord>,
                                           links: seq<Link>, input: ChainInput) returns (content: Content)
    requires Unforgeable(env, world) && HonestKeySets(world) && HonestChain(world, owner, links)
    requires DelegationsSound(env, world, owner, links) && AllGenuine(world, owner, dnskeys)
    requires TrustPath(env, owner, dnskeys, links, input)
    ensures world.published(LastZone(owner, links), content) && Describes(env, content, input.target)
    decreases |links|
  {
    if links == [] {
      content := SignedUnderGenuine(env, world, owner, dnskeys, input.target, input.targetSigs, input.now);
    } else {
      var link := links[0];
      SignedDsIsAnchor(env, world, owner, dnskeys, link, input.now);
      TrustedZoneIsGenuine(env, world, link.childOwner, link.ds, link.dnskeys, link.dnskeySigs, input.now);
      content := PathIsPublished(env, world, link.childOwner, link.dnskeys, links[1..], input);
    }
  }

  /** A secure target over sound delegations between honest zones is content that the last zone publishes. */
  lemma SecureOverSoundDelegations(env: Env, world: World, input: ChainInput) returns (content: Content)
    requires Unforgeable(env, world) && HonestKeySets(world) && HonestChain(world, input.owner, input.links)
    requires HonestAnchor(env, world, input.owner, input.ds) && DelegationsSound(env, world, input.owner, input.links)
    requires ValidateChain(env, input) == Ok(Secure)
    ensures world.published(LastZone(input.owner, input.links), content) && Describes(env, content, input.target)
  {
    ChainSound(env, input);
    TrustedZoneIsGenuine(env, world, input.owner, input.ds, input.dnskeys, input.dnskeySigs, input.now);
    content := PathIsPublished(env, world, input.owner, input.dnskeys, input.links, input);
  }

  lemma {:induction false} HonestDsSetsSuffice(env: Env, world: World, owner: DnsName, links: seq<Link>)
    requires HonestDsSets(env, world) && HonestChain(world, owner, links)
    ensures DelegationsSound(env, world, owner, links)
    decreases |links|
  {
    if links != [] {
      HonestDsSetsSuffice(env, world, links[0].childOwner, links[1..]);
    }
  }

  /**
   * End to end: if the zones on the chain are honest, whatever other zones and keys do, a secure target is content that
   * the last zone of the chain publishes: same owner, type and class, and exactly the published set of RDATA.
   */
  lemma SecureTargetIsPublished(env: Env, world: World, input: ChainInput)
    requires Unforgeable(env, world) && HonestKeySets(world) && HonestDsSets(env, world)
    requires HonestChain(world, input.owner, input.links) && HonestAnchor(env, world, input.owner, input.ds)
    requires ValidateChain(env, input) == Ok(Secure)
    ensures exists content: Content ::
              world.published(LastZone(input.owner, input.links), content) && Describes(env, content, input.target)
  {
    HonestDsSetsSuffice(env, world, input.owner, input.links);
    var content := SecureOverSoundDelegations(env, world, input);
  }
}
