/** NSEC3 denial: closest encloser proofs over a ring of hashed owner names, with opt-out spans. */
module Nsec3 {
  import opened Wrappers
  import opened Order
  import opened Dns
  import opened TypeBitmap
  import opened DnssecRecords
  import opened SignedData
  import SignedDataUnique
  import opened DnssecChain
  import opened Base32Hex
  import opened Nsec

  function HashName(env: Env, name: DnsName, nsec3: Nsec3Record): Result<seq<Byte>, DnssecError> {
    if nsec3.hashAlgorithm != NSEC3_HASH_SHA1 then Err(UnsupportedDigest)
    else if nsec3.iterations > NSEC3_MAX_ITERATIONS then Err(InvalidNsec3)
    else Ok(env.nsec3Hash(name, nsec3.iterations, nsec3.salt))
  }

  function OwnerHash(owner: DnsName, zone: DnsName): Result<seq<Byte>, DnssecError> {
    if |owner| != |zone| + 1 || owner[1..] != zone then Err(InvalidNsec3)
    else
      match Decode(owner[0])
      case None => Err(InvalidNsec3)
      case Some(hash) => Ok(hash)
  }

  predicate CoversHash(owner: seq<Byte>, next: seq<Byte>, query: seq<Byte>) {
    |owner| == |next| == |query| && Between(CompareRdata, owner, next, query)
  }

  datatype Proof = Proof(nsec3: Nsec3Record, ownerHash: seq<Byte>)

  /** Unusable records and records whose hash lengths disagree are passed over. */
  function ParseProofs(rrset: seq<ResourceRecord>, zone: DnsName): Result<seq<Proof>, DnssecError> {
    if rrset == [] then Ok([])
    else if rrset[0].rtype != NSEC3 then ParseProofs(rrset[1..], zone)
    else
      var nsec3 :- ParseNsec3(rrset[0].rdata);
      if !nsec3.Usable() then ParseProofs(rrset[1..], zone)
      else
        var ownerHash :- OwnerHash(rrset[0].name, zone);
        var rest :- ParseProofs(rrset[1..], zone);
        Ok(if |ownerHash| != |nsec3.nextHash| then rest else [Proof(nsec3, ownerHash)] + rest)
  }

  predicate Skips(expected: Option<Nsec3Record>, proof: Proof) {
    expected.Some? && !expected.value.SameParams(proof.nsec3)
  }

  function FindMatching(env: Env, proofs: seq<Proof>, name: DnsName, expected: Option<Nsec3Record>)
    : Result<Option<Proof>, DnssecError>
  {
    if proofs == [] then Ok(None)
    else if Skips(expected, proofs[0]) || !proofs[0].nsec3.Usable() then FindMatching(env, proofs[1..], name, expected)
    else
      var hash :- HashName(env, name, proofs[0].nsec3);
      if proofs[0].ownerHash == hash then Ok(Some(proofs[0])) else FindMatching(env, proofs[1..], name, expected)
  }

  function FindCovering(env: Env, proofs: seq<Proof>, name: DnsName, expected: Option<Nsec3Record>)
    : Result<Option<Proof>, DnssecError>
  {
    if proofs == [] then Ok(None)
    else if Skips(expected, proofs[0]) || !proofs[0].nsec3.Usable() then FindCovering(env, proofs[1..], name, expected)
    else
      var hash :- HashName(env, name, proofs[0].nsec3);
      if CoversHash(proofs[0].ownerHash, proofs[0].nsec3.nextHash, hash) then Ok(Some(proofs[0]))
      else FindCovering(env, proofs[1..], name, expected)
  }

  /** Neither a delegation nor a DNAME sits at the closest encloser. */
  function IsAuthoritative(nsec3: Nsec3Record): Result<bool, DnssecError> {
    var dname :- nsec3.HasType(DNAME);
    if dname then Ok(false)
    else
      var ns :- nsec3.HasType(NS);
      var soa :- nsec3.HasType(SOA);
      Ok(!ns || soa)
  }

  function NextCloser(query: DnsName, encloser: DnsName): Result<DnsName, DnssecError> {
    if !IsStrictSubdomain(query, encloser) then Err(NameEncoding)
    else NameFromLabels(query[|query| - |encloser| - 1..])
  }

  datatype SignedSet = SignedSet(records: seq<ResourceRecord>, sigs: seq<ResourceRecord>)

  datatype NameErrorInput3 = NameErrorInput3(
    signer: DnsName,
    dnskeys: seq<ResourceRecord>,
    query: DnsName,
    encloser: DnsName,
    closest: SignedSet,
    nextCloser: SignedSet,
    wildcard: SignedSet,
    now: nat)

  function ValidateSet(env: Env, input: NameErrorInput3, s: SignedSet): Result<Status, DnssecError> {
    if s.records == [] then Ok(Bogus)
    else ValidateSignature(env, input.signer, input.dnskeys, s.records, s.sigs, input.now)
  }

  datatype ProofValidation = Valid(closest: Proof, nextCloser: Proof) | Verdict(status: Status)

  function ValidateClosestEncloser(env: Env, input: NameErrorInput3): Result<ProofValidation, DnssecError> {
    if !IsStrictSubdomain(input.query, input.encloser) then Ok(Verdict(Bogus))
    else
      var closestStatus :- ValidateSet(env, input, input.closest);
      if closestStatus != Secure then Ok(Verdict(closestStatus))
      else
        var closestProofs :- ParseProofs(input.closest.records, input.signer);
        var closest :- FindMatching(env, closestProofs, input.encloser, None);
        if closest.None? then Ok(Verdict(Bogus))
        else
          var authoritative :- IsAuthoritative(closest.value.nsec3);
          if !authoritative then Ok(Verdict(Bogus)) else ValidateNextCloser(env, input, closest.value)
  }

  function ValidateNextCloser(env: Env, input: NameErrorInput3, closest: Proof): Result<ProofValidation, DnssecError> {
    var candidate :- NextCloser(input.query, input.encloser);
    var nextStatus :- ValidateSet(env, input, input.nextCloser);
    if nextStatus != Secure then Ok(Verdict(nextStatus))
    else
      var nextProofs :- ParseProofs(input.nextCloser.records, input.signer);
      var next :- FindCovering(env, nextProofs, candidate, Some(closest.nsec3));
      if next.None? then Ok(Verdict(Bogus)) else Ok(Valid(closest, next.value))
  }

  function ValidateWildcard(env: Env, input: NameErrorInput3, closest: Proof): Result<Status, DnssecError> {
    var name :- WildcardChild(input.encloser);
    var status :- ValidateSet(env, input, input.wildcard);
    if status != Secure then Ok(status)
    else
      var proofs :- ParseProofs(input.wildcard.records, input.signer);
      var proof :- FindCovering(env, proofs, name, Some(closest.nsec3));
      if proof.None? then Ok(Bogus)
      else if proof.value.nsec3.OptOut() then Ok(InsecureDelegation)
      else Ok(Secure)
  }

  function ValidateNameError3(env: Env, input: NameErrorInput3): Result<Status, DnssecError> {
    var validation :- ValidateClosestEncloser(env, input);
    match validation
    case Verdict(status) => Ok(status)
    case Valid(closest, nextCloser) =>
      if nextCloser.nsec3.OptOut() then Ok(InsecureDelegation) else ValidateWildcard(env, input, closest)
  }

  // ---- The zone behind the records ----

  /** The hashed owner ring for one set of parameters: sorted hashes, and the opt-out flag of each link. */
  datatype HashRing = HashRing(owners: seq<seq<Byte>>, optOut: seq<bool>)

  /** Which names exist and what they own, and the hash ring for each number of iterations and salt. */
  datatype Zone = Zone(apex: DnsName, has: DnsName -> bool, types: TypeMap, ring: (U16, seq<Byte>) -> HashRing)

  /** Existing names lie at or below the apex, and with a name all names between it and the apex exist. */
  ghost predicate AncestorClosed(zone: Zone) {
    forall name: DnsName {:trigger ParentExists(zone, name)} | zone.has(name) :: ParentExists(zone, name)
  }

  ghost predicate ParentExists(zone: Zone, name: DnsName) {
    AtOrBelow(name, zone.apex) && (name != zone.apex ==> zone.has(name[1..]))
  }

  /** Ring owners are hashes of existing names; only an opt-out span may skip an existing name. */
  ghost predicate HonestHashes(env: Env, zone: Zone, iterations: U16, salt: seq<Byte>) {
    var ring := zone.ring(iterations, salt);
    && Ring<seq<Byte>>(CompareRdata, ring.owners) && |ring.optOut| == |ring.owners|
    && (forall i: nat | i < |ring.owners| ::
          exists name :: zone.has(name) && env.nsec3Hash(name, iterations, salt) == ring.owners[i])
    && (forall name: DnsName | zone.has(name) :: InRingOrOptedOut(ring, env.nsec3Hash(name, iterations, salt)))
  }

  ghost predicate InRingOrOptedOut(ring: HashRing, hash: seq<Byte>)
    requires |ring.optOut| == |ring.owners|
  {
    || hash in ring.owners
    || exists i: nat :: i < |ring.owners| && ring.optOut[i] && CoveredBy(CompareRdata, ring.owners, i, hash)
  }

  ghost predicate LinkOfRing(ring: HashRing, proof: Proof) {
    exists i: nat :: i < |ring.owners| && i < |ring.optOut|
      && proof.ownerHash == ring.owners[i]
      && proof.nsec3.nextHash == NextOwner(ring.owners, i)
      && proof.nsec3.OptOut() == ring.optOut[i]
  }

  predicate HashesTo(env: Env, proof: Proof, name: DnsName) {
    proof.ownerHash == env.nsec3Hash(name, proof.nsec3.iterations, proof.nsec3.salt)
  }

  /** Every NSEC3 record that validates under these keys is a link of the ring for its parameters. */
  ghost predicate HonestZone(env: Env, zone: Zone, signer: DnsName, dnskeys: seq<ResourceRecord>, now: nat) {
    && AncestorClosed(zone)
    && forall rrset: seq<ResourceRecord>, sigs: seq<ResourceRecord>
         | ValidateSignature(env, signer, dnskeys, rrset, sigs, now) == Ok(Secure) && ParseProofs(rrset, signer).Ok?
         :: forall proof <- ParseProofs(rrset, signer).value :: HonestProof(env, zone, proof)
  }

  ghost predicate HonestProof(env: Env, zone: Zone, proof: Proof) {
    && HonestHashes(env, zone, proof.nsec3.iterations, proof.nsec3.salt)
    && LinkOfRing(zone.ring(proof.nsec3.iterations, proof.nsec3.salt), proof)
    && forall name: DnsName | zone.has(name) && HashesTo(env, proof, name) ::
         ListsTypes(zone.types, name, proof.nsec3.bitmap)
  }

  /** With the parameters of these proofs no other existing name shares the hash of `name`. */
  ghost predicate CollisionFree(env: Env, zone: Zone, name: DnsName, proofs: seq<Proof>) {
    forall proof <- proofs, other: DnsName
      | zone.has(other) && HashesAlike(env, proof.nsec3, other, name) :: other == name
  }

  ghost predicate HashesAlike(env: Env, nsec3: Nsec3Record, a: DnsName, b: DnsName) {
    env.nsec3Hash(a, nsec3.iterations, nsec3.salt) == env.nsec3Hash(b, nsec3.iterations, nsec3.salt)
  }

  /** The proofs read from the set that is to show the closest encloser. */
  function EncloserProofs(input: NameErrorInput3): seq<Proof> {
    var proofs := ParseProofs(input.closest.records, input.signer);
    if proofs.Ok? then proofs.value else []
  }

  // ---- Soundness ----

  lemma {:induction false} MatchingFound(env: Env, proofs: seq<Proof>, name: DnsName, expected: Option<Nsec3Record>)
    requires FindMatching(env, proofs, name, expected).Ok? && FindMatching(env, proofs, name, expected).value.Some?
    ensures var proof := FindMatching(env, proofs, name, expected).value.value;
            proof in proofs && proof.ownerHash == env.nsec3Hash(name, proof.nsec3.iterations, proof.nsec3.salt)
  {
    if Skips(expected, proofs[0]) || !proofs[0].nsec3.Usable()
       || HashName(env, name, proofs[0].nsec3).value != proofs[0].ownerHash {
      MatchingFound(env, proofs[1..], name, expected);
    }
  }

  lemma {:induction false} CoveringFound(env: Env, proofs: seq<Proof>, name: DnsName, expected: Nsec3Record)
    requires FindCovering(env, proofs, name, Some(expected)).Ok?
    requires FindCovering(env, proofs, name, Some(expected)).value.Some?
    ensures var proof := FindCovering(env, proofs, name, Some(expected)).value.value;
            && proof in proofs && expected.SameParams(proof.nsec3)
            && Covers(env, proof, name)
  {
    if Skips(Some(expected), proofs[0]) || !proofs[0].nsec3.Usable()
       || !CoversHash(proofs[0].ownerHash, proofs[0].nsec3.nextHash, HashName(env, name, proofs[0].nsec3).value) {
      CoveringFound(env, proofs[1..], name, expected);
    }
  }

  /** The proofs a search considers: usable, and with the expected parameters if there are any. */
  predicate Considered(expected: Option<Nsec3Record>, proof: Proof) {
    !Skips(expected, proof) && proof.nsec3.Usable()
  }

  predicate Covers(env: Env, proof: Proof, name: DnsName) {
    CoversHash(proof.ownerHash, proof.nsec3.nextHash, env.nsec3Hash(name, proof.nsec3.iterations, proof.nsec3.salt))
  }

  /** With iteration counts in bounds, the search finds a matching proof exactly when there is one. */
  lemma {:induction false} MatchingComplete(env: Env, proofs: seq<Proof>, name: DnsName, expected: Option<Nsec3Record>)
    requires forall proof <- proofs :: proof.nsec3.iterations <= NSEC3_MAX_ITERATIONS
    ensures FindMatching(env, proofs, name, expected).Ok?
    ensures FindMatching(env, proofs, name, expected).value.Some? <==>
            exists proof <- proofs :: Considered(expected, proof) && HashesTo(env, proof, name)
  {
    if proofs != [] {
      assert forall proof :: proof in proofs <==> proof == proofs[0] || proof in proofs[1..];
      MatchingComplete(env, proofs[1..], name, expected);
      assert (exists proof <- proofs :: Considered(expected, proof) && HashesTo(env, proof, name))
        <==> (Considered(expected, proofs[0]) && HashesTo(env, proofs[0], name))
             || exists proof <- proofs[1..] :: Considered(expected, proof) && HashesTo(env, proof, name);
    }
  }

  /** The same for a covering proof. */
  lemma {:induction false} CoveringComplete(env: Env, proofs: seq<Proof>, name: DnsName, expected: Option<Nsec3Record>)
    requires forall proof <- proofs :: proof.nsec3.iterations <= NSEC3_MAX_ITERATIONS
    ensures FindCovering(env, proofs, name, expected).Ok?
    ensures FindCovering(env, proofs, name, expected).value.Some? <==>
            exists proof <- proofs :: Considered(expected, proof) && Covers(env, proof, name)
  {
    if proofs != [] {
      assert forall proof :: proof in proofs <==> proof == proofs[0] || proof in proofs[1..];
      CoveringComplete(env, proofs[1..], name, expected);
      assert (exists proof <- proofs :: Considered(expected, proof) && Covers(env, proof, name))
        <==> (Considered(expected, proofs[0]) && Covers(env, proofs[0], name))
             || exists proof <- proofs[1..] :: Considered(expected, proof) && Covers(env, proof, name);
    }
  }

  /** A name whose hash falls into a span without opt-out does not exist. */
  lemma CoveredIsAbsent(env: Env, zone: Zone, proof: Proof, name: DnsName)
    requires HonestProof(env, zone, proof) && !proof.nsec3.OptOut()
    requires Covers(env, proof, name)
    ensures !zone.has(name)
  {
    var ring := zone.ring(proof.nsec3.iterations, proof.nsec3.salt);
    var hash := env.nsec3Hash(name, proof.nsec3.iterations, proof.nsec3.salt);
    SignedDataUnique.RdataTotallyOrdered();
    var i: nat :| i < |ring.owners| && proof.ownerHash == ring.owners[i]
      && proof.nsec3.nextHash == NextOwner(ring.owners, i) && proof.nsec3.OptOut() == ring.optOut[i];
    assert CoveredBy(CompareRdata, ring.owners, i, hash);
    RingPartition<seq<Byte>>(CompareRdata, ring.owners, hash);
    assert hash !in ring.owners;
    forall j: nat | j < |ring.owners| && CoveredBy(CompareRdata, ring.owners, j, hash) ensures j == i {
      CoverUnique<seq<Byte>>(CompareRdata, ring.owners, i, j, hash);
    }
    assert zone.has(name) ==> InRingOrOptedOut(ring, hash);
  }

  lemma MatchedExists(env: Env, zone: Zone, proof: Proof, name: DnsName)
    requires HonestProof(env, zone, proof) && CollisionFree(env, zone, name, [proof])
    requires proof.ownerHash == env.nsec3Hash(name, proof.nsec3.iterations, proof.nsec3.salt)
    ensures zone.has(name)
  {
    var ring := zone.ring(proof.nsec3.iterations, proof.nsec3.salt);
    var i: nat :| i < |ring.owners| && proof.ownerHash == ring.owners[i];
    var other :| zone.has(other) && env.nsec3Hash(other, proof.nsec3.iterations, proof.nsec3.salt) == ring.owners[i];
    assert proof in [proof] && HashesAlike(env, proof.nsec3, other, name);
  }

  /** With `name` every name above it down from the apex exists. */
  lemma {:induction false} AncestorsExist(zone: Zone, name: DnsName, k: nat)
    requires AncestorClosed(zone) && zone.has(name) && k <= |name| - |zone.apex|
    ensures zone.has(name[k..])
    decreases k
  {
    if k == 0 {
      assert name[0..] == name;
    } else {
      AncestorsExist(zone, name, k - 1);
      assert name[k - 1..][1..] == name[k..] && |name[k - 1..]| > |zone.apex|;
      assert ParentExists(zone, name[k - 1..]);
    }
  }

  /** The proofs read from a validated set are links of the ring for their parameters. */
  lemma ProofsAreLinks(env: Env, input: NameErrorInput3, zone: Zone, s: SignedSet, proof: Proof)
    requires HonestZone(env, zone, input.signer, input.dnskeys, input.now)
    requires ValidateSet(env, input, s) == Ok(Secure)
    requires ParseProofs(s.records, input.signer).Ok? && proof in ParseProofs(s.records, input.signer).value
    ensures HonestProof(env, zone, proof)
  {
  }

  /** What an accepted closest encloser rests on: a matching proof of a name that is no cut. */
  lemma EncloserProof(env: Env, input: NameErrorInput3) returns (closest: Proof)
    requires ValidateClosestEncloser(env, input).Ok? && ValidateClosestEncloser(env, input).value.Valid?
    ensures closest == ValidateClosestEncloser(env, input).value.closest
    ensures ValidateClosestEncloser(env, input) == ValidateNextCloser(env, input, closest)
    ensures ValidateSet(env, input, input.closest) == Ok(Secure) && closest in EncloserProofs(input)
    ensures HashesTo(env, closest, input.encloser) && IsAuthoritative(closest.nsec3) == Ok(true)
  {
    var proofs := ParseProofs(input.closest.records, input.signer).value;
    MatchingFound(env, proofs, input.encloser, None);
    closest := FindMatching(env, proofs, input.encloser, None).value.value;
  }

  lemma EncloserExists(env: Env, input: NameErrorInput3, zone: Zone)
    requires HonestZone(env, zone, input.signer, input.dnskeys, input.now)
    requires CollisionFree(env, zone, input.encloser, EncloserProofs(input))
    requires ValidateClosestEncloser(env, input).Ok? && ValidateClosestEncloser(env, input).value.Valid?
    ensures zone.has(input.encloser) && !IsCut(zone.types, input.encloser)
    ensures var closest := ValidateClosestEncloser(env, input).value.closest;
            ValidateClosestEncloser(env, input) == ValidateNextCloser(env, input, closest)
  {
    var closest := EncloserProof(env, input);
    ProofsAreLinks(env, input, zone, input.closest, closest);
    assert CollisionFree(env, zone, input.encloser, [closest]);
    MatchedExists(env, zone, closest, input.encloser);
    MatchedNoCut(env, zone, closest, input.encloser);
  }

  /** The check passes exactly for names that are no cut; a malformed bitmap is an error. */
  lemma AuthoritativeIff(types: TypeMap, name: DnsName, nsec3: Nsec3Record)
    requires ListsTypes(types, name, nsec3.bitmap)
    ensures ValidBitmap(nsec3.bitmap) ==> IsAuthoritative(nsec3) == Ok(!IsCut(types, name))
    ensures !ValidBitmap(nsec3.bitmap) ==> IsAuthoritative(nsec3) == Err(InvalidNsec3)
  {
    if ValidBitmap(nsec3.bitmap) {
      ListsCutIff(types, name, nsec3.bitmap);
    }
  }

  /** The check at the closest encloser sees what the name owns. */
  lemma MatchedNoCut(env: Env, zone: Zone, proof: Proof, name: DnsName)
    requires HonestProof(env, zone, proof) && zone.has(name) && HashesTo(env, proof, name)
    requires IsAuthoritative(proof.nsec3) == Ok(true)
    ensures !IsCut(zone.types, name)
  {
    AuthoritativeIff(zone.types, name, proof.nsec3);
  }

  lemma NextCloserAbsent(env: Env, input: NameErrorInput3, zone: Zone, closest: Proof)
    requires HonestZone(env, zone, input.signer, input.dnskeys, input.now)
    requires ValidateNextCloser(env, input, closest).Ok? && ValidateNextCloser(env, input, closest).value.Valid?
    requires !ValidateNextCloser(env, input, closest).value.nextCloser.nsec3.OptOut()
    ensures IsStrictSubdomain(input.query, input.encloser)
    ensures !zone.has(SuffixOf(input.query, |input.encloser| + 1))
  {
    var name := NextCloser(input.query, input.encloser).value;
    var proofs := ParseProofs(input.nextCloser.records, input.signer).value;
    CoveringFound(env, proofs, name, closest.nsec3);
    var proof := FindCovering(env, proofs, name, Some(closest.nsec3)).value.value;
    ProofsAreLinks(env, input, zone, input.nextCloser, proof);
    CoveredIsAbsent(env, zone, proof, name);
  }

  lemma WildcardAbsent(env: Env, input: NameErrorInput3, zone: Zone, closest: Proof)
    requires HonestZone(env, zone, input.signer, input.dnskeys, input.now)
    requires ValidateWildcard(env, input, closest) == Ok(Secure)
    ensures !zone.has([STAR] + input.encloser)
  {
    var name := [STAR] + input.encloser;
    var proofs := ParseProofs(input.wildcard.records, input.signer).value;
    CoveringFound(env, proofs, name, closest.nsec3);
    var proof := FindCovering(env, proofs, name, Some(closest.nsec3)).value.value;
    ProofsAreLinks(env, input, zone, input.wildcard, proof);
    CoveredIsAbsent(env, zone, proof, name);
  }

  lemma LongerAbsent(zone: Zone, query: DnsName, encloser: DnsName)
    requires AncestorClosed(zone) && zone.has(encloser) && |encloser| < |query|
    requires !zone.has(SuffixOf(query, |encloser| + 1))
    ensures forall n: nat | |encloser| < n <= |query| :: !zone.has(SuffixOf(query, n))
    ensures !zone.has(query)
  {
    assert ParentExists(zone, encloser);
    forall n: nat | |encloser| < n <= |query| ensures !zone.has(SuffixOf(query, n)) {
      assert SuffixOf(query, n)[n - |encloser| - 1..] == SuffixOf(query, |encloser| + 1);
      if zone.has(SuffixOf(query, n)) {
        AncestorsExist(zone, SuffixOf(query, n), n - |encloser| - 1);
      }
    }
    assert SuffixOf(query, |query|) == query;
  }

  /**
   * A secure NSEC3 name error: the closest encloser exists and is the longest existing suffix of the query, so the
   * query itself does not exist, and neither does the wildcard that would have answered for it.
   */
  lemma NameErrorSound3(env: Env, input: NameErrorInput3, zone: Zone)
    requires HonestZone(env, zone, input.signer, input.dnskeys, input.now)
    requires CollisionFree(env, zone, input.encloser, EncloserProofs(input))
    requires ValidateNameError3(env, input) == Ok(Secure)
    ensures IsStrictSubdomain(input.query, input.encloser) && zone.has(input.encloser)
    ensures forall n: nat | |input.encloser| < n <= |input.query| :: !zone.has(SuffixOf(input.query, n))
    ensures !zone.has(input.query) && !zone.has([STAR] + input.encloser)
    ensures !IsCut(zone.types, input.encloser)
  {
    var validation := ValidateClosestEncloser(env, input).value;
    EncloserExists(env, input, zone);
    NextCloserAbsent(env, input, zone, validation.closest);
    WildcardAbsent(env, input, zone, validation.closest);
    LongerAbsent(zone, input.query, input.encloser);
  }

  // ---- Zone cuts ----

  /** Nothing exists below a cut. */
  ghost predicate NothingBelowCuts(zone: Zone) {
    forall name: DnsName {:trigger AboveIsNoCut(zone, name)} | zone.has(name) :: AboveIsNoCut(zone, name)
  }

  ghost predicate AboveIsNoCut(zone: Zone, name: DnsName) {
    name != zone.apex && name != [] ==> !IsCut(zone.types, name[1..])
  }

  lemma {:induction false} NoCutAbove(zone: Zone, name: DnsName, k: nat)
    requires AncestorClosed(zone) && NothingBelowCuts(zone) && zone.has(name) && 0 < k <= |name| - |zone.apex|
    ensures !IsCut(zone.types, name[k..])
  {
    AncestorsExist(zone, name, k - 1);
    var below := name[k - 1..];
    assert below[1..] == name[k..] && |below| > |zone.apex|;
    assert AboveIsNoCut(zone, below);
  }

  /** A secure name error is about names of this zone: no cut lies at or above the query. */
  lemma NameErrorWithinZone(env: Env, input: NameErrorInput3, zone: Zone)
    requires HonestZone(env, zone, input.signer, input.dnskeys, input.now) && NothingBelowCuts(zone)
    requires CollisionFree(env, zone, input.encloser, EncloserProofs(input))
    requires ValidateNameError3(env, input) == Ok(Secure)
    ensures forall n: nat | |zone.apex| <= n <= |input.query| && zone.has(SuffixOf(input.query, n)) ::
              !IsCut(zone.types, SuffixOf(input.query, n))
  {
    NameErrorSound3(env, input, zone);
    forall n: nat | |zone.apex| <= n <= |input.query| && zone.has(SuffixOf(input.query, n))
      ensures !IsCut(zone.types, SuffixOf(input.query, n))
    {
      assert n <= |input.encloser|;
      NoCutAt(zone, input.query, input.encloser, n);
    }
  }

  lemma NoCutAt(zone: Zone, query: DnsName, encloser: DnsName, n: nat)
    requires AncestorClosed(zone) && NothingBelowCuts(zone) && zone.has(encloser) && !IsCut(zone.types, encloser)
    requires IsStrictSubdomain(query, encloser) && |zone.apex| <= n <= |encloser|
    ensures !IsCut(zone.types, SuffixOf(query, n))
  {
    assert SuffixOf(query, n) == encloser[|encloser| - n..];
    if n < |encloser| {
      NoCutAbove(zone, encloser, |encloser| - n);
    } else {
      assert encloser[0..] == encloser;
    }
  }
}
