/**
 * Denial end to end: the honest rings that the denial proofs rely on follow from what an honest zone publishes,
 * because its keys sign nothing else and the signed bytes fix owner and record data.
 */
module DenialSoundness {
  import opened Wrappers
  import opened Order
  import opened Dns
  import opened DnssecRecords
  import opened SignedData
  import opened SignedDataUnique
  import opened DnssecChain
  import opened DnssecSoundness
  import opened Nsec
  import opened NsecEncloser
  import opened Nsec3

  /** Every record of a validated set has the owner and, canonically, the record data of published content. */
  lemma ValidatedIsPublished(env: Env, world: World, zone: DnsName, dnskeys: seq<ResourceRecord>,
                             rrset: seq<ResourceRecord>, sigs: seq<ResourceRecord>, now: nat)
    returns (content: Content)
    requires Unforgeable(env, world) && world.honest(zone) && AllGenuine(world, zone, dnskeys)
    requires ValidateSignature(env, zone, dnskeys, rrset, sigs, now) == Ok(Secure)
    ensures world.published(zone, content)
    ensures forall record <- rrset :: PublishedIn(env, content, record)
  {
    SecureIffSigned(env, zone, dnskeys, rrset, sigs, now);
    content := SignedUnderGenuine(env, world, zone, dnskeys, rrset, sigs, now);
    SignedNamesEqual(env, zone, dnskeys, rrset, sigs, now);
    forall record <- rrset ensures PublishedIn(env, content, record) {
      assert InContent(env, content, record);
    }
  }

  ghost predicate PublishedIn(env: Env, content: Content, record: ResourceRecord) {
    content.owner == record.name && content.rtype == record.rtype && InContent(env, content, record)
  }

  lemma SignedNamesEqual(env: Env, zone: DnsName, dnskeys: seq<ResourceRecord>, rrset: seq<ResourceRecord>,
                         sigs: seq<ResourceRecord>, now: nat)
    requires SignedUnder(env, zone, dnskeys, rrset, sigs, now)
    ensures rrset != [] && forall record <- rrset :: record.name == rrset[0].name
  {
    var key, rrsig :| Signs(env, zone, key, rrset, rrsig, now) && KeyIn(key, dnskeys) && SigIn(env, rrsig, sigs, rrset);
    OwnerFixed(env, rrset, rrsig);
  }

  // ---- NSEC ----

  /** The NSEC sets a zone publishes are exactly links of its ring: owner, next owner, bitmap. */
  ghost predicate PublishesRing(world: World, zone: DnsName, owners: seq<DnsName>) {
    && Ring(CompareNames, owners)
    && forall content: Content | world.published(zone, content) && content.rtype == NSEC ::
         forall rdata <- content.rdatas :: IsLink(owners, content.owner, rdata)
  }

  ghost predicate IsLink(owners: seq<DnsName>, owner: DnsName, rdata: seq<Byte>) {
    exists i: nat, bitmap: seq<Byte> ::
      i < |owners| && owners[i] == owner && rdata == EncodeName(NextOwner(owners, i)) + bitmap
  }

  lemma PublishedLink(env: Env, owners: seq<DnsName>, content: Content, record: ResourceRecord)
    requires PublishedIn(env, content, record) && record.rtype == NSEC
    requires forall rdata <- content.rdatas :: IsLink(owners, content.owner, rdata)
    ensures LinkOf(env, owners, record)
  {
    var rdata := CanonicalRdata(env, record).value;
    var i: nat, bitmap: seq<Byte> :|
      i < |owners| && owners[i] == content.owner && rdata == EncodeName(NextOwner(owners, i)) + bitmap;
    var nsec := ParseNsec(env, record.rdata).value;
    assert rdata == EncodeName(nsec.next) + nsec.bitmap;
    NamePrefixCode(nsec.next, nsec.bitmap, NextOwner(owners, i), bitmap);
  }

  lemma PublishedRingIsHonest(env: Env, world: World, zone: DnsName, dnskeys: seq<ResourceRecord>, now: nat,
                              owners: seq<DnsName>)
    requires Unforgeable(env, world) && world.honest(zone) && AllGenuine(world, zone, dnskeys)
    requires PublishesRing(world, zone, owners)
    ensures HonestRing(env, zone, dnskeys, now, owners)
  {
    forall rrset: seq<ResourceRecord>, sigs: seq<ResourceRecord>
      | ValidateSignature(env, zone, dnskeys, rrset, sigs, now) == Ok(Secure)
      ensures forall record <- rrset | record.rtype == NSEC :: LinkOf(env, owners, record)
    {
      var content := ValidatedIsPublished(env, world, zone, dnskeys, rrset, sigs, now);
      forall record <- rrset | record.rtype == NSEC ensures LinkOf(env, owners, record) {
        assert PublishedIn(env, content, record);
        PublishedLink(env, owners, content, record);
      }
    }
  }

  /** With genuine keys of a zone that publishes its ring, a secure name error denies both names. */
  lemma NsecDenialSound(env: Env, world: World, input: NameErrorInput, owners: seq<DnsName>)
    requires Unforgeable(env, world) && world.honest(input.signer) && AllGenuine(world, input.signer, input.dnskeys)
    requires PublishesRing(world, input.signer, owners)
    requires ValidateNameError(env, input) == Ok(Secure)
    ensures input.query !in owners && [STAR] + input.encloser !in owners
  {
    PublishedRingIsHonest(env, world, input.signer, input.dnskeys, input.now, owners);
    NameErrorSound(env, input, owners);
  }

  /** The bitmaps of the NSEC sets a zone publishes list the types of their owners. */
  ghost predicate PublishesTypes(world: World, zone: DnsName, types: TypeMap) {
    forall content: Content | world.published(zone, content) && content.rtype == NSEC ::
      forall rdata <- content.rdatas :: ListsOwnTypes(types, content.owner, rdata)
  }

  ghost predicate ListsOwnTypes(types: TypeMap, owner: DnsName, rdata: seq<Byte>) {
    forall next: DnsName, bitmap: seq<Byte> | rdata == EncodeName(next) + bitmap :: ListsTypes(types, owner, bitmap)
  }

  lemma PublishedTypesAreHonest(env: Env, world: World, zone: DnsName, dnskeys: seq<ResourceRecord>, now: nat,
                                types: TypeMap)
    requires Unforgeable(env, world) && world.honest(zone) && AllGenuine(world, zone, dnskeys)
    requires PublishesTypes(world, zone, types)
    ensures HonestTypes(env, zone, dnskeys, now, types)
  {
    forall rrset: seq<ResourceRecord>, sigs: seq<ResourceRecord>
      | ValidateSignature(env, zone, dnskeys, rrset, sigs, now) == Ok(Secure)
      ensures forall record <- rrset | record.rtype == NSEC :: HonestBitmap(env, types, record)
    {
      var content := ValidatedIsPublished(env, world, zone, dnskeys, rrset, sigs, now);
      forall record <- rrset | record.rtype == NSEC ensures HonestBitmap(env, types, record) {
        assert PublishedIn(env, content, record);
        PublishedBitmap(env, types, content, record);
      }
    }
  }

  lemma PublishedBitmap(env: Env, types: TypeMap, content: Content, record: ResourceRecord)
    requires PublishedIn(env, content, record) && record.rtype == NSEC
    requires forall rdata <- content.rdatas :: ListsOwnTypes(types, content.owner, rdata)
    ensures HonestBitmap(env, types, record)
  {
    var rdata := CanonicalRdata(env, record).value;
    var nsec := ParseNsec(env, record.rdata).value;
    assert ListsOwnTypes(types, content.owner, rdata) && rdata == EncodeName(nsec.next) + nsec.bitmap;
  }

  // ---- NSEC3 ----

  /** The NSEC3 sets a zone publishes are links of the hash ring for their parameters. */
  ghost predicate PublishesHashRings(env: Env, world: World, zone: Zone) {
    && AncestorClosed(zone)
    && forall content: Content | world.published(zone.apex, content) && content.rtype == NSEC3 ::
         forall rdata <- content.rdatas :: IsHashLink(env, zone, content.owner, rdata)
  }

  ghost predicate IsHashLink(env: Env, zone: Zone, owner: DnsName, rdata: seq<Byte>) {
    var (nsec3, hash) := (ParseNsec3(rdata), OwnerHash(owner, zone.apex));
    nsec3.Ok? && hash.Ok? ==> HonestProof(env, zone, Proof(nsec3.value, hash.value))
  }

  /** Each proof read from a set comes from one of its NSEC3 records. */
  lemma {:induction false} ProofSource(rrset: seq<ResourceRecord>, zone: DnsName, proof: Proof)
    returns (record: ResourceRecord)
    requires ParseProofs(rrset, zone).Ok? && proof in ParseProofs(rrset, zone).value
    ensures record in rrset && record.rtype == NSEC3
    ensures ParseNsec3(record.rdata) == Ok(proof.nsec3) && OwnerHash(record.name, zone) == Ok(proof.ownerHash)
    decreases |rrset|
  {
    record := rrset[0];
    var rest := ParseProofs(rrset[1..], zone);
    if rest.Ok? && proof in rest.value {
      record := ProofSource(rrset[1..], zone, proof);
    }
  }

  lemma PublishedZoneIsHonest(env: Env, world: World, zone: Zone, dnskeys: seq<ResourceRecord>, now: nat)
    requires Unforgeable(env, world) && world.honest(zone.apex) && AllGenuine(world, zone.apex, dnskeys)
    requires PublishesHashRings(env, world, zone)
    ensures HonestZone(env, zone, zone.apex, dnskeys, now)
  {
    forall rrset: seq<ResourceRecord>, sigs: seq<ResourceRecord>
      | ValidateSignature(env, zone.apex, dnskeys, rrset, sigs, now) == Ok(Secure) && ParseProofs(rrset, zone.apex).Ok?
      ensures forall proof <- ParseProofs(rrset, zone.apex).value :: HonestProof(env, zone, proof)
    {
      var content := ValidatedIsPublished(env, world, zone.apex, dnskeys, rrset, sigs, now);
      forall proof <- ParseProofs(rrset, zone.apex).value ensures HonestProof(env, zone, proof) {
        var record := ProofSource(rrset, zone.apex, proof);
        PublishedProof(env, zone, content, record, proof);
      }
    }
  }

  lemma PublishedProof(env: Env, zone: Zone, content: Content, record: ResourceRecord, proof: Proof)
    requires PublishedIn(env, content, record) && record.rtype == NSEC3
    requires forall rdata <- content.rdatas :: IsHashLink(env, zone, content.owner, rdata)
    requires ParseNsec3(record.rdata) == Ok(proof.nsec3) && OwnerHash(record.name, zone.apex) == Ok(proof.ownerHash)
    ensures HonestProof(env, zone, proof)
  {
    assert CanonicalRdata(env, record) == Ok(record.rdata);
    assert IsHashLink(env, zone, content.owner, record.rdata);
  }

  /** With genuine keys of a zone that publishes its hash rings, a secure name error fixes the closest encloser. */
  lemma Nsec3DenialSound(env: Env, world: World, input: NameErrorInput3, zone: Zone)
    requires Unforgeable(env, world) && world.honest(zone.apex) && AllGenuine(world, zone.apex, input.dnskeys)
    requires input.signer == zone.apex
    requires PublishesHashRings(env, world, zone) && CollisionFree(env, zone, input.encloser, EncloserProofs(input))
    requires ValidateNameError3(env, input) == Ok(Secure)
    ensures zone.has(input.encloser) && !zone.has(input.query) && !zone.has([STAR] + input.encloser)
    ensures !IsCut(zone.types, input.encloser)
    ensures forall n: nat | |input.encloser| < n <= |input.query| :: !zone.has(SuffixOf(input.query, n))
  {
    PublishedZoneIsHonest(env, world, zone, input.dnskeys, input.now);
    NameErrorSound3(env, input, zone);
  }
}
