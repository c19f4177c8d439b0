/** The DNSSEC record types and their RDATA parsers. */
module DnssecRecords {
  import opened Wrappers
  import opened Dns
  import opened TypeBitmap

  datatype DnssecError =
    | InvalidDnskey | InvalidDs | UnsupportedDigest | NameEncoding | InvalidRrsig | InvalidNsec | InvalidNsec3
    | InvalidRrset | UnsupportedCanonicalRdata | SignatureOutsideValidity | UnsupportedAlgorithm | InvalidSignature

  datatype Status = Secure | InsecureDelegation | Bogus

  /**
   * What validation relies on and does not define: reading wire names, re-encoding SVCB parameters, and the
   * cryptographic primitives. `malformed` reports a key or signature of the wrong shape before any verification.
   */
  datatype Env = Env(
    parseName: NameParser,
    canonicalSvcb: ResourceRecord -> Result<seq<Byte>, DnssecError>,
    digest: (Byte, seq<Byte>) -> seq<Byte>,
    malformed: (Byte, seq<Byte>, seq<Byte>) -> Option<DnssecError>,
    verifies: (Byte, seq<Byte>, seq<Byte>, seq<Byte>) -> bool,
    nsec3Hash: (DnsName, U16, seq<Byte>) -> seq<Byte>)

  const DNSSEC_PROTOCOL: Byte := 3
  const NSEC3_HASH_SHA1: Byte := 1
  const NSEC3_MAX_ITERATIONS: nat := 2500

  function U16At(s: seq<Byte>, i: nat): U16
    requires i + 1 < |s|
  {
    s[i] as int * 256 + s[i + 1]
  }

  function U32At(s: seq<Byte>, i: nat): U32
    requires i + 3 < |s|
  {
    U16At(s, i) * 0x1_0000 + U16At(s, i + 2)
  }

  // ---- DNSKEY and DS ----

  datatype DnskeyRecord = DnskeyRecord(flags: U16, algorithm: Byte, publicKey: seq<Byte>, rdata: seq<Byte>) {
    predicate IsZoneKey() {
      flags / 0x100 % 2 == 1
    }

    function KeyTag(): U16 {
      TagOf(rdata)
    }
  }

  datatype DsRecord = DsRecord(keyTag: U16, algorithm: Byte, digestType: Byte, digest: seq<Byte>)

  function TagSum(rdata: seq<Byte>): nat {
    if rdata == [] then 0
    else
      TagSum(rdata[..|rdata| - 1])
      + (if |rdata| % 2 == 1 then rdata[|rdata| - 1] as int * 256 else rdata[|rdata| - 1] as int)
  }

  function TagOf(rdata: seq<Byte>): U16 {
    var sum := TagSum(rdata);
    (sum + sum / 0x1_0000 % 0x1_0000) % 0x1_0000
  }

  method ComputeKeyTag(rdata: seq<Byte>) returns (tag: U16)
    ensures tag == TagOf(rdata)
  {
    var accumulator: nat := 0;
    for i := 0 to |rdata|
      invariant accumulator == TagSum(rdata[..i])
    {
      assert rdata[..i + 1][..i] == rdata[..i];
      if i % 2 == 0 {
        accumulator := accumulator + rdata[i] as int * 256;
      } else {
        accumulator := accumulator + rdata[i];
      }
    }
    assert rdata[..|rdata|] == rdata;
    accumulator := accumulator + accumulator / 0x1_0000 % 0x1_0000;
    return accumulator % 0x1_0000;
  }

  lemma {:induction false} TagSumBound(rdata: seq<Byte>)
    ensures TagSum(rdata) <= 255 * 256 * |rdata|
    decreases |rdata|
  {
    if rdata != [] {
      TagSumBound(rdata[..|rdata| - 1]);
    }
  }

  /** No record data is long enough to overflow the 32-bit accumulator. */
  lemma KeyTagFits(rdata: seq<Byte>)
    requires |rdata| <= 0xffff
    ensures TagSum(rdata) + TagSum(rdata) / 0x1_0000 % 0x1_0000 <= U32_MAX
  {
    TagSumBound(rdata);
  }

  function ParseDnskey(rdata: seq<Byte>): Result<DnskeyRecord, DnssecError> {
    if |rdata| < 4 || rdata[2] != DNSSEC_PROTOCOL then Err(InvalidDnskey)
    else Ok(DnskeyRecord(U16At(rdata, 0), rdata[3], rdata[4..], rdata))
  }

  function ParseDs(rdata: seq<Byte>): Result<DsRecord, DnssecError> {
    if |rdata| < 5 then Err(InvalidDs)
    else Ok(DsRecord(U16At(rdata, 0), rdata[2], rdata[3], rdata[4..]))
  }

  // ---- RRSIG ----

  datatype RrsigRecord = RrsigRecord(
    typeCovered: U16,
    algorithm: Byte,
    labels: Byte,
    originalTtl: U32,
    expiration: U32,
    inception: U32,
    keyTag: U16,
    signerName: DnsName,
    signature: seq<Byte>,
    signedRdata: seq<Byte>)
  {
    predicate ValidAt(now: nat) {
      inception <= now <= expiration
    }

    /** The signed form is the eighteen fixed bytes, which hold all other fields, followed by the encoded signer. */
    predicate WellFormed() {
      && |signedRdata| >= 18
      && signedRdata[18..] == EncodeName(signerName)
      && typeCovered == U16At(signedRdata, 0)
      && algorithm == signedRdata[2]
      && labels == signedRdata[3]
      && originalTtl == U32At(signedRdata, 4)
      && expiration == U32At(signedRdata, 8)
      && inception == U32At(signedRdata, 12)
      && keyTag == U16At(signedRdata, 16)
    }
  }

  function ParseRrsig(env: Env, rdata: seq<Byte>): (r: Result<RrsigRecord, DnssecError>)
    ensures r.Ok? ==> r.value.WellFormed()
  {
    if |rdata| < 19 then Err(InvalidRrsig)
    else
      match env.parseName(rdata, 18)
      case None => Err(InvalidRrsig)
      case Some((signer, end)) =>
        if end >= |rdata| then Err(InvalidRrsig)
        else
          var signed := rdata[..18] + EncodeName(signer);
          assert signed[18..] == EncodeName(signer);
          Ok(RrsigRecord(U16At(rdata, 0), rdata[2], rdata[3], U32At(rdata, 4), U32At(rdata, 8), U32At(rdata, 12),
                         U16At(rdata, 16), signer, rdata[end..], signed))
  }

  // ---- NSEC and NSEC3 ----

  datatype NsecRecord = NsecRecord(next: DnsName, bitmap: seq<Byte>)

  function ParseNsec(env: Env, rdata: seq<Byte>): Result<NsecRecord, DnssecError> {
    match env.parseName(rdata, 0)
    case None => Err(InvalidNsec)
    case Some((next, cursor)) =>
      if cursor >= |rdata| || !ValidBitmap(rdata[cursor..]) then Err(InvalidNsec)
      else Ok(NsecRecord(next, rdata[cursor..]))
  }

  datatype Nsec3Record = Nsec3Record(
    hashAlgorithm: Byte,
    flags: Byte,
    iterations: U16,
    salt: seq<Byte>,
    nextHash: seq<Byte>,
    bitmap: seq<Byte>)
  {
    predicate OptOut() {
      flags % 2 == 1
    }

    predicate Usable() {
      hashAlgorithm == NSEC3_HASH_SHA1 && flags < 2
    }

    predicate SameParams(other: Nsec3Record) {
      hashAlgorithm == other.hashAlgorithm && iterations == other.iterations && salt == other.salt
    }

    function HasType(code: U16): Result<bool, DnssecError> {
      if ValidBitmap(bitmap) then Ok(Contains(bitmap, code)) else Err(InvalidNsec3)
    }
  }

  function ParseNsec3(rdata: seq<Byte>): (r: Result<Nsec3Record, DnssecError>)
    ensures r.Ok? ==> ValidBitmap(r.value.bitmap)
  {
    if |rdata| < 6 then Err(InvalidNsec3)
    else
      var saltEnd: nat := 5 + rdata[4] as int;
      if saltEnd >= |rdata| || rdata[saltEnd] == 0 then Err(InvalidNsec3)
      else
        var hashEnd: nat := saltEnd + 1 + rdata[saltEnd] as int;
        if hashEnd > |rdata| || !ValidBitmap(rdata[hashEnd..]) then Err(InvalidNsec3)
        else
          Ok(Nsec3Record(rdata[0], rdata[1], U16At(rdata, 2), rdata[5..saltEnd], rdata[saltEnd + 1..hashEnd],
                         rdata[hashEnd..]))
  }

  // ---- Types and zone cuts ----

  /** The bitmap lists exactly the types that the name owns. */
  ghost predicate ListsTypes(types: TypeMap, name: DnsName, bitmap: seq<Byte>) {
    forall code: U16 :: types(name, code) <==> Lists(bitmap, code)
  }

  /** The bitmap of a cut. */
  predicate ListsCut(bitmap: seq<Byte>) {
    Contains(bitmap, DNAME) || (Contains(bitmap, NS) && !Contains(bitmap, SOA))
  }

  lemma ListsCutIff(types: TypeMap, name: DnsName, bitmap: seq<Byte>)
    requires ValidBitmap(bitmap) && ListsTypes(types, name, bitmap)
    ensures ListsCut(bitmap) <==> IsCut(types, name)
  {
    ContainsIffListed(bitmap, -1, DNAME);
    ContainsIffListed(bitmap, -1, NS);
    ContainsIffListed(bitmap, -1, SOA);
  }
}
