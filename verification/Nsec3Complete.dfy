/** Which NSEC3 name errors are accepted: those whose three sets validate and hold the proofs that are needed. */
module Nsec3Complete {
  import opened Wrappers
  import opened Order
  import opened Dns
  import opened TypeBitmap
  import opened DnssecRecords
  import opened SignedData
  import opened CanonicalForms
  import opened DnssecChain
  import opened DnssecVerdicts
  import opened Base32Hex
  import opened Nsec
  import opened Nsec3

  // ---- Proofs ----

  /** The record that a proof is read from: SHA-1, no unknown flag, and hashes of one length. */
  ghost predicate ReadFrom(record: ResourceRecord, zone: DnsName, proof: Proof) {
    && record.rtype == NSEC3 && ParseNsec3(record.rdata) == Ok(proof.nsec3)
    && proof.nsec3.hashAlgorithm == 1 && proof.nsec3.flags < 2
    && |record.name| == |zone| + 1 && record.name[1..] == zone && Decode(record.name[0]) == Some(proof.ownerHash)
    && |proof.ownerHash| == |proof.nsec3.nextHash|
  }

  lemma {:induction false} ProofsIff(rrset: seq<ResourceRecord>, zone: DnsName, proof: Proof)
    requires ParseProofs(rrset, zone).Ok?
    ensures proof in ParseProofs(rrset, zone).value <==> exists record <- rrset :: ReadFrom(record, zone, proof)
    decreases |rrset|
  {
    if rrset != [] {
      assert forall record :: record in rrset <==> record == rrset[0] || record in rrset[1..];
      HeadProof(rrset, zone, proof);
      ProofsIff(rrset[1..], zone, proof);
      assert (exists record <- rrset :: ReadFrom(record, zone, proof)) <==>
             ReadFrom(rrset[0], zone, proof) || exists record <- rrset[1..] :: ReadFrom(record, zone, proof);
    }
  }

  lemma HeadProof(rrset: seq<ResourceRecord>, zone: DnsName, proof: Proof)
    requires rrset != [] && ParseProofs(rrset, zone).Ok?
    ensures ParseProofs(rrset[1..], zone).Ok?
    ensures proof in ParseProofs(rrset, zone).value <==>
            ReadFrom(rrset[0], zone, proof) || proof in ParseProofs(rrset[1..], zone).value
  {
  }

  /** A record that can be read: not an NSEC3 record, or one that parses and, if usable, has a hashed owner here. */
  ghost predicate ProofReadable(record: ResourceRecord, zone: DnsName) {
    record.rtype == NSEC3 ==>
    && ParseNsec3(record.rdata).Ok?
    && var nsec3 := ParseNsec3(record.rdata).value;
       nsec3.hashAlgorithm == 1 && nsec3.flags < 2 ==>
       |record.name| == |zone| + 1 && record.name[1..] == zone && Decode(record.name[0]).Some?
  }

  lemma {:induction false} ProofsReadableIff(rrset: seq<ResourceRecord>, zone: DnsName)
    ensures ParseProofs(rrset, zone).Ok? <==> forall record <- rrset :: ProofReadable(record, zone)
    ensures ParseProofs(rrset, zone).Err? ==> ParseProofs(rrset, zone).error == InvalidNsec3
    decreases |rrset|
  {
    if rrset != [] {
      assert forall record :: record in rrset <==> record == rrset[0] || record in rrset[1..];
      ProofsReadableIff(rrset[1..], zone);
      HeadReadable(rrset, zone);
    }
  }

  lemma HeadReadable(rrset: seq<ResourceRecord>, zone: DnsName)
    requires rrset != []
    ensures ParseProofs(rrset, zone).Ok? <==>
            ProofReadable(rrset[0], zone) && ParseProofs(rrset[1..], zone).Ok?
    ensures !ProofReadable(rrset[0], zone) ==> ParseProofs(rrset, zone) == Err(InvalidNsec3)
    ensures ProofReadable(rrset[0], zone) && ParseProofs(rrset[1..], zone).Err? ==>
            ParseProofs(rrset, zone) == Err(ParseProofs(rrset[1..], zone).error)
  {
  }

  /** The hash lies strictly between owner and next; beyond the end of the order when next comes first; or anywhere. */
  ghost predicate InSpan(owner: seq<Byte>, next: seq<Byte>, hash: seq<Byte>) {
    && |owner| == |next| == |hash| && hash != owner
    && (|| (Precedes(owner, next) && Precedes(owner, hash) && Precedes(hash, next))
        || (Precedes(next, owner) && (Precedes(owner, hash) || Precedes(hash, next)))
        || owner == next)
  }

  ghost function HashOf(env: Env, proof: Proof, name: DnsName): seq<Byte> {
    env.nsec3Hash(name, proof.nsec3.iterations, proof.nsec3.salt)
  }

  /** The proof is considered: it is usable, and has the parameters of the closest encloser's proof if that is known. */
  ghost predicate Eligible(expected: Option<Nsec3Record>, proof: Proof) {
    && proof.nsec3.hashAlgorithm == 1 && proof.nsec3.flags < 2
    && (expected.Some? ==>
        && proof.nsec3.hashAlgorithm == expected.value.hashAlgorithm
        && proof.nsec3.iterations == expected.value.iterations && proof.nsec3.salt == expected.value.salt)
  }

  /** Eligible proofs before position `i` can be hashed and do not match, the proof there can and does. */
  ghost predicate FirstMatch(env: Env, proofs: seq<Proof>, name: DnsName, expected: Option<Nsec3Record>, i: nat) {
    && i < |proofs|
    && (forall j: nat | j < i && Eligible(expected, proofs[j]) ::
          proofs[j].nsec3.iterations <= 2500 && proofs[j].ownerHash != HashOf(env, proofs[j], name))
    && Eligible(expected, proofs[i]) && proofs[i].nsec3.iterations <= 2500
    && proofs[i].ownerHash == HashOf(env, proofs[i], name)
  }

  ghost predicate FirstCover(env: Env, proofs: seq<Proof>, name: DnsName, expected: Option<Nsec3Record>, i: nat) {
    && i < |proofs|
    && (forall j: nat | j < i && Eligible(expected, proofs[j]) ::
          && proofs[j].nsec3.iterations <= 2500
          && !InSpan(proofs[j].ownerHash, proofs[j].nsec3.nextHash, HashOf(env, proofs[j], name)))
    && Eligible(expected, proofs[i]) && proofs[i].nsec3.iterations <= 2500
    && InSpan(proofs[i].ownerHash, proofs[i].nsec3.nextHash, HashOf(env, proofs[i], name))
  }

  lemma InSpanIff(owner: seq<Byte>, next: seq<Byte>, hash: seq<Byte>)
    ensures InSpan(owner, next, hash) <==> CoversHash(owner, next, hash)
  {
    LexicographicIsTotal(CompareBytes);
    RdataLessIff(owner, next);
    RdataLessIff(next, owner);
    RdataLessIff(owner, hash);
    RdataLessIff(hash, next);
    LexicographicPair(CompareBytes, owner, next);
    LexicographicPair(CompareBytes, next, owner);
    BetweenIff(CompareRdata, owner, next, hash);
  }

  lemma {:induction false} MatchingIsFirst(env: Env, proofs: seq<Proof>, name: DnsName, expected: Option<Nsec3Record>,
                                           proof: Proof)
    ensures FindMatching(env, proofs, name, expected) == Ok(Some(proof)) <==>
            exists i: nat :: FirstMatch(env, proofs, name, expected, i) && proofs[i] == proof
    decreases |proofs|
  {
    if proofs != [] {
      var rest := proofs[1..];
      MatchingIsFirst(env, rest, name, expected, proof);
      assert Eligible(expected, proofs[0]) <==> !(Skips(expected, proofs[0]) || !proofs[0].nsec3.Usable());
      ShiftMatch(env, proofs, name, expected, proof);
      if Eligible(expected, proofs[0]) && FirstMatch(env, proofs, name, expected, 0) {
        assert FindMatching(env, proofs, name, expected) == Ok(Some(proofs[0]));
      }
    }
  }

  /** The first match is the head, or the head is no obstacle and it is the first match behind it. */
  lemma ShiftMatch(env: Env, proofs: seq<Proof>, name: DnsName, expected: Option<Nsec3Record>, proof: Proof)
    requires proofs != []
    ensures (exists i: nat :: FirstMatch(env, proofs, name, expected, i) && proofs[i] == proof) <==>
            || (FirstMatch(env, proofs, name, expected, 0) && proofs[0] == proof)
            || (&& (Eligible(expected, proofs[0]) ==>
                    proofs[0].nsec3.iterations <= 2500 && proofs[0].ownerHash != HashOf(env, proofs[0], name))
                && exists i: nat :: FirstMatch(env, proofs[1..], name, expected, i) && proofs[1..][i] == proof)
  {
    var rest := proofs[1..];
    if i: nat :| FirstMatch(env, proofs, name, expected, i) && proofs[i] == proof && i > 0 {
      assert FirstMatch(env, rest, name, expected, i - 1) && rest[i - 1] == proof;
    }
    if i: nat :| FirstMatch(env, rest, name, expected, i) && rest[i] == proof {
      if Eligible(expected, proofs[0]) ==>
           proofs[0].nsec3.iterations <= 2500 && proofs[0].ownerHash != HashOf(env, proofs[0], name) {
        assert FirstMatch(env, proofs, name, expected, i + 1) && proofs[i + 1] == proof;
      }
    }
  }

  lemma {:induction false} CoveringIsFirst(env: Env, proofs: seq<Proof>, name: DnsName, expected: Option<Nsec3Record>,
                                           proof: Proof)
    ensures FindCovering(env, proofs, name, expected) == Ok(Some(proof)) <==>
            exists i: nat :: FirstCover(env, proofs, name, expected, i) && proofs[i] == proof
    decreases |proofs|
  {
    if proofs != [] {
      var rest := proofs[1..];
      CoveringIsFirst(env, rest, name, expected, proof);
      assert Eligible(expected, proofs[0]) <==> !(Skips(expected, proofs[0]) || !proofs[0].nsec3.Usable());
      InSpanIff(proofs[0].ownerHash, proofs[0].nsec3.nextHash, HashOf(env, proofs[0], name));
      ShiftCover(env, proofs, name, expected, proof);
    }
  }

  lemma ShiftCover(env: Env, proofs: seq<Proof>, name: DnsName, expected: Option<Nsec3Record>, proof: Proof)
    requires proofs != []
    ensures (exists i: nat :: FirstCover(env, proofs, name, expected, i) && proofs[i] == proof) <==>
            || (FirstCover(env, proofs, name, expected, 0) && proofs[0] == proof)
            || (&& (Eligible(expected, proofs[0]) ==>
                    && proofs[0].nsec3.iterations <= 2500
                    && !InSpan(proofs[0].ownerHash, proofs[0].nsec3.nextHash, HashOf(env, proofs[0], name)))
                && exists i: nat :: FirstCover(env, proofs[1..], name, expected, i) && proofs[1..][i] == proof)
  {
    var rest := proofs[1..];
    if i: nat :| FirstCover(env, proofs, name, expected, i) && proofs[i] == proof && i > 0 {
      assert FirstCover(env, rest, name, expected, i - 1) && rest[i - 1] == proof;
    }
    if i: nat :| FirstCover(env, rest, name, expected, i) && rest[i] == proof {
      if Eligible(expected, proofs[0]) ==>
           && proofs[0].nsec3.iterations <= 2500
           && !InSpan(proofs[0].ownerHash, proofs[0].nsec3.nextHash, HashOf(env, proofs[0], name)) {
        assert FirstCover(env, proofs, name, expected, i + 1) && proofs[i + 1] == proof;
      }
    }
  }

  /** Searches fail only on an eligible proof with too many iterations. */
  lemma {:induction false} SearchErrors(env: Env, proofs: seq<Proof>, name: DnsName, expected: Option<Nsec3Record>)
    ensures FindMatching(env, proofs, name, expected).Err? || FindCovering(env, proofs, name, expected).Err? ==>
            exists proof <- proofs :: Eligible(expected, proof) && proof.nsec3.iterations > 2500
    ensures FindMatching(env, proofs, name, expected).Err? ==>
            FindMatching(env, proofs, name, expected).error == InvalidNsec3
    ensures FindCovering(env, proofs, name, expected).Err? ==>
            FindCovering(env, proofs, name, expected).error == InvalidNsec3
    decreases |proofs|
  {
    if proofs != [] {
      assert forall proof :: proof in proofs <==> proof == proofs[0] || proof in proofs[1..];
      SearchErrors(env, proofs[1..], name, expected);
    }
  }

  // ---- The three sets ----

  /** A set that validates under the signer, with its proofs. */
  ghost predicate Proves(env: Env, input: NameErrorInput3, s: SignedSet, proofs: seq<Proof>) {
    && s.records != []
    && ValidateSignature(env, input.signer, input.dnskeys, s.records, s.sigs, input.now) == Ok(Secure)
    && ParseProofs(s.records, input.signer) == Ok(proofs)
  }

  /** The only flag that a usable proof can have is set. */
  predicate OptsOut(proof: Proof) {
    proof.nsec3.flags == 1
  }

  /** A name that fits the wire. */
  predicate Fits(name: DnsName) {
    |EncodeName(name)| <= 255
  }

  ghost predicate MatchedBy(env: Env, input: NameErrorInput3, s: SignedSet, name: DnsName, proof: Proof) {
    exists proofs: seq<Proof>, i: nat ::
      Proves(env, input, s, proofs) && FirstMatch(env, proofs, name, None, i) && proofs[i] == proof
  }

  ghost predicate CoveredBySet(env: Env, input: NameErrorInput3, s: SignedSet, name: DnsName, closest: Proof,
                               proof: Proof)
  {
    exists proofs: seq<Proof>, i: nat ::
      Proves(env, input, s, proofs) && FirstCover(env, proofs, name, Some(closest.nsec3), i) && proofs[i] == proof
  }

  /** The proof of the closest encloser, and that it lists neither a DNAME nor a delegation. */
  ghost predicate EncloserShown(env: Env, input: NameErrorInput3, closest: Proof) {
    && IsStrictSubdomain(input.query, input.encloser)
    && MatchedBy(env, input, input.closest, input.encloser, closest)
    && !ListsCut(closest.nsec3.bitmap)
  }

  ghost predicate NextCloserShown(env: Env, input: NameErrorInput3, closest: Proof, next: Proof)
    requires IsStrictSubdomain(input.query, input.encloser)
  {
    && Fits(SuffixOf(input.query, |input.encloser| + 1))
    && CoveredBySet(env, input, input.nextCloser, SuffixOf(input.query, |input.encloser| + 1), closest, next)
  }

  ghost predicate WildcardShown(env: Env, input: NameErrorInput3, closest: Proof, wildcard: Proof) {
    && Fits([STAR] + input.encloser)
    && CoveredBySet(env, input, input.wildcard, [STAR] + input.encloser, closest, wildcard)
  }

  lemma ProofBitmap(env: Env, input: NameErrorInput3, s: SignedSet, proofs: seq<Proof>, proof: Proof)
    requires Proves(env, input, s, proofs) && proof in proofs
    ensures ValidBitmap(proof.nsec3.bitmap) && IsAuthoritative(proof.nsec3) == Ok(!ListsCut(proof.nsec3.bitmap))
  {
    ProofsIff(s.records, input.signer, proof);
  }

  /** What the validator does with one set, up to the covering proof. */
  predicate FindsCover(env: Env, input: NameErrorInput3, s: SignedSet, name: DnsName, closest: Proof, proof: Proof) {
    && ValidateSet(env, input, s) == Ok(Secure)
    && var proofs := ParseProofs(s.records, input.signer);
       proofs.Ok? && FindCovering(env, proofs.value, name, Some(closest.nsec3)) == Ok(Some(proof))
  }

  predicate FindsMatch(env: Env, input: NameErrorInput3, s: SignedSet, name: DnsName, proof: Proof) {
    && ValidateSet(env, input, s) == Ok(Secure)
    && var proofs := ParseProofs(s.records, input.signer);
       proofs.Ok? && FindMatching(env, proofs.value, name, None) == Ok(Some(proof))
  }

  lemma FindsCoverIff(env: Env, input: NameErrorInput3, s: SignedSet, name: DnsName, closest: Proof, proof: Proof)
    ensures FindsCover(env, input, s, name, closest, proof) <==> CoveredBySet(env, input, s, name, closest, proof)
  {
    var parsed := ParseProofs(s.records, input.signer);
    if parsed.Ok? {
      CoveringIsFirst(env, parsed.value, name, Some(closest.nsec3), proof);
    }
  }

  lemma CoverFlags(env: Env, input: NameErrorInput3, s: SignedSet, name: DnsName, closest: Proof, proof: Proof)
    requires CoveredBySet(env, input, s, name, closest, proof)
    ensures proof.nsec3.OptOut() == OptsOut(proof)
  {
    var proofs: seq<Proof>, i: nat :|
      Proves(env, input, s, proofs) && FirstCover(env, proofs, name, Some(closest.nsec3), i) && proofs[i] == proof;
    assert Eligible(Some(closest.nsec3), proof);
  }

  lemma FindsMatchIff(env: Env, input: NameErrorInput3, s: SignedSet, name: DnsName, proof: Proof)
    ensures FindsMatch(env, input, s, name, proof) <==> MatchedBy(env, input, s, name, proof)
    ensures FindsMatch(env, input, s, name, proof) ==> IsAuthoritative(proof.nsec3) == Ok(!ListsCut(proof.nsec3.bitmap))
  {
    var parsed := ParseProofs(s.records, input.signer);
    if parsed.Ok? {
      MatchingIsFirst(env, parsed.value, name, None, proof);
      if FindsMatch(env, input, s, name, proof) {
        var i: nat :| FirstMatch(env, parsed.value, name, None, i) && parsed.value[i] == proof;
        ProofBitmap(env, input, s, parsed.value, proof);
      }
    }
  }

  lemma NextCloserIff(env: Env, input: NameErrorInput3, closest: Proof, next: Proof)
    requires IsStrictSubdomain(input.query, input.encloser)
    ensures ValidateNextCloser(env, input, closest) == Ok(Nsec3.Valid(closest, next)) <==>
            NextCloserShown(env, input, closest, next)
  {
    FindsCoverIff(env, input, input.nextCloser, SuffixOf(input.query, |input.encloser| + 1), closest, next);
    NextCloserFinds(env, input, closest, next);
  }

  lemma NextCloserFinds(env: Env, input: NameErrorInput3, closest: Proof, next: Proof)
    requires IsStrictSubdomain(input.query, input.encloser)
    ensures var name := SuffixOf(input.query, |input.encloser| + 1);
            ValidateNextCloser(env, input, closest) == Ok(Nsec3.Valid(closest, next)) <==>
            Fits(name) && FindsCover(env, input, input.nextCloser, name, closest, next)
  {
    assert NextCloser(input.query, input.encloser) == NameFromLabels(SuffixOf(input.query, |input.encloser| + 1));
  }

  /** What a covered wildcard means: opt-out makes it an insecure delegation. */
  function WildcardVerdict(optOut: bool): Status {
    if optOut then InsecureDelegation else Secure
  }

  lemma WildcardIff(env: Env, input: NameErrorInput3, closest: Proof, optOut: bool)
    ensures ValidateWildcard(env, input, closest) == Ok(WildcardVerdict(optOut)) <==>
            exists wildcard :: WildcardShown(env, input, closest, wildcard) && OptsOut(wildcard) == optOut
  {
    if ValidateWildcard(env, input, closest) == Ok(WildcardVerdict(optOut)) {
      var wildcard := WildcardFinds(env, input, closest, optOut);
      FindsCoverIff(env, input, input.wildcard, [STAR] + input.encloser, closest, wildcard);
      CoverFlags(env, input, input.wildcard, [STAR] + input.encloser, closest, wildcard);
      assert WildcardShown(env, input, closest, wildcard);
    }
    if wildcard :| WildcardShown(env, input, closest, wildcard) && OptsOut(wildcard) == optOut {
      FindsCoverIff(env, input, input.wildcard, [STAR] + input.encloser, closest, wildcard);
      CoverFlags(env, input, input.wildcard, [STAR] + input.encloser, closest, wildcard);
      CoverDecides(env, input, closest, wildcard);
    }
  }

  lemma WildcardFinds(env: Env, input: NameErrorInput3, closest: Proof, optOut: bool) returns (wildcard: Proof)
    requires ValidateWildcard(env, input, closest) == Ok(WildcardVerdict(optOut))
    ensures Fits([STAR] + input.encloser) && wildcard.nsec3.OptOut() == optOut
    ensures FindsCover(env, input, input.wildcard, [STAR] + input.encloser, closest, wildcard)
  {
    var s := input.wildcard;
    NeverInsecure(env, input.signer, input.dnskeys, s.records, s.sigs, input.now);
    var proofs := ParseProofs(s.records, input.signer).value;
    wildcard := FindCovering(env, proofs, [STAR] + input.encloser, Some(closest.nsec3)).value.value;
  }

  lemma CoverDecides(env: Env, input: NameErrorInput3, closest: Proof, wildcard: Proof)
    requires Fits([STAR] + input.encloser)
    requires FindsCover(env, input, input.wildcard, [STAR] + input.encloser, closest, wildcard)
    ensures ValidateWildcard(env, input, closest) == Ok(WildcardVerdict(wildcard.nsec3.OptOut()))
  {
  }

  /** The matching proof of the closest encloser decides between a refusal and the next closer name. */
  lemma MatchDecides(env: Env, input: NameErrorInput3, closest: Proof, authoritative: bool)
    requires IsStrictSubdomain(input.query, input.encloser)
    requires FindsMatch(env, input, input.closest, input.encloser, closest)
    requires IsAuthoritative(closest.nsec3) == Ok(authoritative)
    ensures ValidateClosestEncloser(env, input) ==
            if authoritative then ValidateNextCloser(env, input, closest) else Ok(Verdict(Bogus))
  {
  }

  lemma AcceptedMatch(env: Env, input: NameErrorInput3, closest: Proof, next: Proof)
    requires ValidateClosestEncloser(env, input) == Ok(Nsec3.Valid(closest, next))
    ensures FindsMatch(env, input, input.closest, input.encloser, closest)
  {
    var proofs := ParseProofs(input.closest.records, input.signer).value;
    var found := FindMatching(env, proofs, input.encloser, None).value.value;
    assert ValidateNextCloser(env, input, found) == Ok(Nsec3.Valid(closest, next));
  }

  lemma EncloserIff(env: Env, input: NameErrorInput3, closest: Proof, next: Proof)
    ensures ValidateClosestEncloser(env, input) == Ok(Nsec3.Valid(closest, next)) <==>
            EncloserShown(env, input, closest) && NextCloserShown(env, input, closest, next)
  {
    if IsStrictSubdomain(input.query, input.encloser) {
      NextCloserIff(env, input, closest, next);
      FindsMatchIff(env, input, input.closest, input.encloser, closest);
      if FindsMatch(env, input, input.closest, input.encloser, closest) {
        MatchDecides(env, input, closest, !ListsCut(closest.nsec3.bitmap));
      }
      if ValidateClosestEncloser(env, input) == Ok(Nsec3.Valid(closest, next)) {
        AcceptedMatch(env, input, closest, next);
      }
    }
  }

  /**
   * A name error is secure exactly when the closest encloser is matched by a proof that lists no cut, and the next
   * closer name and the wildcard are each covered by the first eligible covering proof of its set, without opt-out.
   */
  lemma NameErrorSecureIff3(env: Env, input: NameErrorInput3)
    ensures ValidateNameError3(env, input) == Ok(Secure) <==>
            exists closest, next, wildcard ::
              && EncloserShown(env, input, closest)
              && NextCloserShown(env, input, closest, next) && !OptsOut(next)
              && WildcardShown(env, input, closest, wildcard) && !OptsOut(wildcard)
  {
    if ValidateNameError3(env, input) == Ok(Secure) {
      EncloserNeverVerdict(env, input);
      var proof := ValidateClosestEncloser(env, input).value;
      ShownProofs(env, input, proof.closest, proof.nextCloser);
      WildcardIff(env, input, proof.closest, false);
    }
    if closest, next, wildcard :|
      && EncloserShown(env, input, closest)
      && NextCloserShown(env, input, closest, next) && !OptsOut(next)
      && WildcardShown(env, input, closest, wildcard) && !OptsOut(wildcard) {
      ShownProofs(env, input, closest, next);
      WildcardIff(env, input, closest, false);
    }
  }

  /** Behind the first two proofs an opt-out of the next closer cover decides, and otherwise the wildcard does. */
  lemma AfterEncloser(env: Env, input: NameErrorInput3, closest: Proof, next: Proof)
    requires ValidateClosestEncloser(env, input) == Ok(Nsec3.Valid(closest, next))
    ensures ValidateNameError3(env, input) ==
            if next.nsec3.flags % 2 == 1 then Ok(InsecureDelegation) else ValidateWildcard(env, input, closest)
  {
  }

  /** What the two parts say together, with the next closer proof's only possible flag. */
  lemma ShownProofs(env: Env, input: NameErrorInput3, closest: Proof, next: Proof)
    ensures ValidateClosestEncloser(env, input) == Ok(Nsec3.Valid(closest, next)) <==>
            EncloserShown(env, input, closest) && NextCloserShown(env, input, closest, next)
    ensures EncloserShown(env, input, closest) && NextCloserShown(env, input, closest, next) ==>
            next.nsec3.OptOut() == OptsOut(next)
  {
    EncloserIff(env, input, closest, next);
    if EncloserShown(env, input, closest) && NextCloserShown(env, input, closest, next) {
      CoverFlags(env, input, input.nextCloser, SuffixOf(input.query, |input.encloser| + 1), closest, next);
    }
  }

  /** It is an insecure delegation exactly when the same proofs are there and one of the two covers opts out. */
  lemma NameErrorInsecureIff3(env: Env, input: NameErrorInput3)
    ensures ValidateNameError3(env, input) == Ok(InsecureDelegation) <==>
            exists closest, next ::
              && EncloserShown(env, input, closest) && NextCloserShown(env, input, closest, next)
              && (|| OptsOut(next)
                  || exists wildcard :: WildcardShown(env, input, closest, wildcard) && OptsOut(wildcard))
  {
    if ValidateNameError3(env, input) == Ok(InsecureDelegation) {
      EncloserNeverVerdict(env, input);
      var proof := ValidateClosestEncloser(env, input).value;
      ShownProofs(env, input, proof.closest, proof.nextCloser);
      WildcardIff(env, input, proof.closest, true);
    }
    if closest, next :|
      && EncloserShown(env, input, closest) && NextCloserShown(env, input, closest, next)
      && (OptsOut(next) || exists wildcard :: WildcardShown(env, input, closest, wildcard) && OptsOut(wildcard)) {
      ShownProofs(env, input, closest, next);
      AfterEncloser(env, input, closest, next);
      WildcardIff(env, input, closest, true);
    }
  }

  /** Without the first two proofs the verdict is an error or bogus. */
  lemma EncloserNeverVerdict(env: Env, input: NameErrorInput3)
    ensures ValidateClosestEncloser(env, input) != Ok(Verdict(InsecureDelegation))
    ensures ValidateClosestEncloser(env, input) != Ok(Verdict(Secure))
  {
    var (a, b) := (input.closest, input.nextCloser);
    NeverInsecure(env, input.signer, input.dnskeys, a.records, a.sigs, input.now);
    NeverInsecure(env, input.signer, input.dnskeys, b.records, b.sigs, input.now);
  }

  /** All of the input can be read: the sets validate or not, their proofs parse, and no hash is refused. */
  ghost predicate Readable(env: Env, input: NameErrorInput3) {
    && (forall s <- [input.closest, input.nextCloser, input.wildcard] ::
          && (s.records != [] ==>
              ValidateSignature(env, input.signer, input.dnskeys, s.records, s.sigs, input.now).Ok?)
          && ParseProofs(s.records, input.signer).Ok?
          && forall proof <- ParseProofs(s.records, input.signer).value :: proof.nsec3.iterations <= 2500)
    && Fits([STAR] + input.encloser)
    && (IsStrictSubdomain(input.query, input.encloser) ==> Fits(SuffixOf(input.query, |input.encloser| + 1)))
  }

  /** Then there is a verdict, so a name error that is neither secure nor an insecure delegation is bogus. */
  lemma ReadableVerdict(env: Env, input: NameErrorInput3)
    requires Readable(env, input)
    ensures ValidateNameError3(env, input).Ok?
  {
    var sets := [input.closest, input.nextCloser, input.wildcard];
    assert input.closest == sets[0] && input.nextCloser == sets[1] && input.wildcard == sets[2];
    if IsStrictSubdomain(input.query, input.encloser) {
      ReadableEncloser(env, input);
      forall closest ensures ValidateWildcard(env, input, closest).Ok? {
        CoveringComplete(env, ParseProofs(input.wildcard.records, input.signer).value, [STAR] + input.encloser,
                         Some(closest.nsec3));
      }
    }
  }

  lemma ReadableEncloser(env: Env, input: NameErrorInput3)
    requires Readable(env, input) && IsStrictSubdomain(input.query, input.encloser)
    ensures ValidateClosestEncloser(env, input).Ok?
  {
    var sets := [input.closest, input.nextCloser, input.wildcard];
    assert input.closest == sets[0];
    var proofs := ParseProofs(input.closest.records, input.signer).value;
    MatchingComplete(env, proofs, input.encloser, None);
    var found := FindMatching(env, proofs, input.encloser, None).value;
    if found.Some? && ValidateSet(env, input, input.closest) == Ok(Secure) {
      FindsMatchIff(env, input, input.closest, input.encloser, found.value);
      MatchDecides(env, input, found.value, !ListsCut(found.value.nsec3.bitmap));
      ReadableNextCloser(env, input, found.value);
    }
  }

  lemma ReadableNextCloser(env: Env, input: NameErrorInput3, closest: Proof)
    requires Readable(env, input) && IsStrictSubdomain(input.query, input.encloser)
    ensures ValidateNextCloser(env, input, closest).Ok?
  {
    assert input.nextCloser == [input.closest, input.nextCloser, input.wildcard][1];
    CoveringComplete(env, ParseProofs(input.nextCloser.records, input.signer).value,
                     SuffixOf(input.query, |input.encloser| + 1), Some(closest.nsec3));
  }
}
