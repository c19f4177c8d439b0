/** Signature validation of one RRset and of a chain of delegations. */
module DnssecChain {
  import opened Wrappers
  import opened Dns
  import opened DnssecRecords
  import opened SignedData

  // ---- Delegation: DS against DNSKEY ----

  function DsDigest(env: Env, owner: DnsName, key: DnskeyRecord, digestType: Byte): Result<seq<Byte>, DnssecError> {
    if digestType == 1 || digestType == 2 || digestType == 4
    then Ok(env.digest(digestType, EncodeName(owner) + key.rdata))
    else Err(UnsupportedDigest)
  }

  function VerifyDs(env: Env, owner: DnsName, key: DnskeyRecord, ds: DsRecord): Result<bool, DnssecError> {
    if !key.IsZoneKey() || key.algorithm != ds.algorithm || key.KeyTag() != ds.keyTag then Ok(false)
    else
      var digest :- DsDigest(env, owner, key, ds.digestType);
      Ok(digest == ds.digest)
  }

  function ParseDsSet(rrset: seq<ResourceRecord>): Result<seq<DsRecord>, DnssecError> {
    if rrset == [] then Ok([])
    else if rrset[0].rtype != DS then ParseDsSet(rrset[1..])
    else
      var ds :- ParseDs(rrset[0].rdata);
      var rest :- ParseDsSet(rrset[1..]);
      Ok([ds] + rest)
  }

  function ParseKeySet(rrset: seq<ResourceRecord>): Result<seq<DnskeyRecord>, DnssecError> {
    if rrset == [] then Ok([])
    else if rrset[0].rtype != DNSKEY then ParseKeySet(rrset[1..])
    else
      var key :- ParseDnskey(rrset[0].rdata);
      var rest :- ParseKeySet(rrset[1..]);
      Ok([key] + rest)
  }

  function MatchesAny(env: Env, owner: DnsName, key: DnskeyRecord, dss: seq<DsRecord>): Result<bool, DnssecError> {
    if dss == [] then Ok(false)
    else
      var first :- VerifyDs(env, owner, key, dss[0]);
      var rest :- MatchesAny(env, owner, key, dss[1..]);
      Ok(first || rest)
  }

  function MatchedKeys(env: Env, owner: DnsName, dss: seq<DsRecord>, rrset: seq<ResourceRecord>)
    : Result<seq<ResourceRecord>, DnssecError>
  {
    if rrset == [] then Ok([])
    else if rrset[0].rtype != DNSKEY then MatchedKeys(env, owner, dss, rrset[1..])
    else
      var key :- ParseDnskey(rrset[0].rdata);
      var matched :- MatchesAny(env, owner, key, dss);
      var rest :- MatchedKeys(env, owner, dss, rrset[1..]);
      Ok(if matched then [rrset[0]] + rest else rest)
  }

  function DsAuthenticatedKeys(env: Env, owner: DnsName, ds: seq<ResourceRecord>, dnskeys: seq<ResourceRecord>)
    : Result<(Status, seq<ResourceRecord>), DnssecError>
  {
    var dss :- ParseDsSet(ds);
    if dss == [] then Ok((InsecureDelegation, []))
    else
      var _ :- ParseKeySet(dnskeys);
      var matched :- MatchedKeys(env, owner, dss, dnskeys);
      Ok(if matched == [] then (Bogus, []) else (Secure, matched))
  }

  // ---- One signature ----

  predicate SupportedAlgorithm(algorithm: Byte) {
    algorithm in {5, 7, 8, 10, 13, 14, 15}
  }

  function VerifyRrsig(env: Env, rrset: seq<ResourceRecord>, rrsig: RrsigRecord, key: DnskeyRecord, now: nat)
    : Result<bool, DnssecError>
  {
    if rrset == [] then Err(InvalidRrset)
    else if rrsig.labels != |rrset[0].name| || !key.IsZoneKey() then Ok(false)
    else if rrsig.algorithm != key.algorithm || rrsig.keyTag != key.KeyTag() then Ok(false)
    else if !SupportedAlgorithm(rrsig.algorithm) then Err(UnsupportedAlgorithm)
    else
      match env.malformed(key.algorithm, key.publicKey, rrsig.signature)
      case Some(e) => Err(e)
      case None =>
        var data :- SignedBytes(env, rrset, rrsig, now);
        Ok(env.verifies(key.algorithm, key.publicKey, data, rrsig.signature))
  }

  function ParseSigSet(env: Env, sigs: seq<ResourceRecord>, owner: DnsName, rclass: U16)
    : Result<seq<RrsigRecord>, DnssecError>
  {
    if sigs == [] then Ok([])
    else if sigs[0].rtype != RRSIG || sigs[0].name != owner || sigs[0].rclass != rclass
    then ParseSigSet(env, sigs[1..], owner, rclass)
    else
      var rrsig :- ParseRrsig(env, sigs[0].rdata);
      var rest :- ParseSigSet(env, sigs[1..], owner, rclass);
      Ok([rrsig] + rest)
  }

  /** Progress of the search: done, or the first error met so far. */
  datatype Attempt = Verified | Unverified(deferred: Option<DnssecError>)

  function Defer(deferred: Option<DnssecError>, e: DnssecError): Option<DnssecError> {
    if deferred.None? then Some(e) else deferred
  }

  function TryKeys(env: Env, rrset: seq<ResourceRecord>, rrsig: RrsigRecord, keys: seq<DnskeyRecord>, now: nat,
                   deferred: Option<DnssecError>): Attempt
    decreases |keys|
  {
    if keys == [] then Unverified(deferred)
    else if keys[0].algorithm != rrsig.algorithm || keys[0].KeyTag() != rrsig.keyTag
    then TryKeys(env, rrset, rrsig, keys[1..], now, deferred)
    else
      match VerifyRrsig(env, rrset, rrsig, keys[0], now)
      case Ok(verified) => if verified then Verified else TryKeys(env, rrset, rrsig, keys[1..], now, deferred)
      case Err(e) => TryKeys(env, rrset, rrsig, keys[1..], now, Defer(deferred, e))
  }

  function TrySigs(env: Env, signer: DnsName, rrset: seq<ResourceRecord>, rrsigs: seq<RrsigRecord>,
                   keys: seq<DnskeyRecord>, now: nat, deferred: Option<DnssecError>): Attempt
    requires rrset != []
    decreases |rrsigs|
  {
    if rrsigs == [] then Unverified(deferred)
    else if rrsigs[0].typeCovered != rrset[0].rtype || rrsigs[0].signerName != signer
    then TrySigs(env, signer, rrset, rrsigs[1..], keys, now, deferred)
    else
      match TryKeys(env, rrset, rrsigs[0], keys, now, deferred)
      case Verified => Verified
      case Unverified(later) => TrySigs(env, signer, rrset, rrsigs[1..], keys, now, later)
  }

  function Conclude(attempt: Attempt): Result<Status, DnssecError> {
    match attempt
    case Verified => Ok(Secure)
    case Unverified(deferred) => if deferred.Some? then Err(deferred.value) else Ok(Bogus)
  }

  function ValidateSignature(env: Env, signer: DnsName, dnskeys: seq<ResourceRecord>, rrset: seq<ResourceRecord>,
                             sigs: seq<ResourceRecord>, now: nat): Result<Status, DnssecError>
  {
    if rrset == [] then Err(InvalidRrset)
    else
      var keys :- ParseKeySet(dnskeys);
      var rrsigs :- ParseSigSet(env, sigs, rrset[0].name, rrset[0].rclass);
      Conclude(TrySigs(env, signer, rrset, rrsigs, keys, now, None))
  }

  method ValidateRrsetSignature(env: Env, signer: DnsName, dnskeys: seq<ResourceRecord>, rrset: seq<ResourceRecord>,
                                sigs: seq<ResourceRecord>, now: nat) returns (r: Result<Status, DnssecError>)
    ensures r == ValidateSignature(env, signer, dnskeys, rrset, sigs, now)
  {
    if rrset == [] {
      return Err(InvalidRrset);
    }
    var keys :- ParseKeySet(dnskeys);
    var rrsigs :- ParseSigSet(env, sigs, rrset[0].name, rrset[0].rclass);
    var deferred: Option<DnssecError> := None;
    for i := 0 to |rrsigs|
      invariant TrySigs(env, signer, rrset, rrsigs, keys, now, None)
             == TrySigs(env, signer, rrset, rrsigs[i..], keys, now, deferred)
    {
      var rrsig := rrsigs[i];
      assert rrsigs[i..][1..] == rrsigs[i + 1..];
      if rrsig.typeCovered != rrset[0].rtype || rrsig.signerName != signer {
        continue;
      }
      ghost var before := deferred;
      for j := 0 to |keys|
        invariant TryKeys(env, rrset, rrsig, keys, now, before)
               == TryKeys(env, rrset, rrsig, keys[j..], now, deferred)
      {
        assert keys[j..][1..] == keys[j + 1..];
        if keys[j].algorithm != rrsig.algorithm || keys[j].KeyTag() != rrsig.keyTag {
          continue;
        }
        var attempt := VerifyRrsig(env, rrset, rrsig, keys[j], now);
        match attempt {
          case Ok(verified) =>
            if verified {
              return Ok(Secure);
            }
          case Err(e) =>
            if deferred.None? {
              deferred := Some(e);
            }
        }
      }
    }
    return if deferred.Some? then Err(deferred.value) else Ok(Bogus);
  }

  // ---- Chains ----

  datatype Link = Link(
    childOwner: DnsName,
    ds: seq<ResourceRecord>,
    dsSigs: seq<ResourceRecord>,
    dnskeys: seq<ResourceRecord>,
    dnskeySigs: seq<ResourceRecord>)

  datatype ChainInput = ChainInput(
    owner: DnsName,
    ds: seq<ResourceRecord>,
    dnskeys: seq<ResourceRecord>,
    dnskeySigs: seq<ResourceRecord>,
    links: seq<Link>,
    target: seq<ResourceRecord>,
    targetSigs: seq<ResourceRecord>,
    now: nat)

  /** One zone's key set: its DS must match, and a matching key must sign the whole set. */
  function ValidateZone(env: Env, owner: DnsName, ds: seq<ResourceRecord>, dnskeys: seq<ResourceRecord>,
                        dnskeySigs: seq<ResourceRecord>, now: nat): Result<Status, DnssecError>
  {
    var (delegation, keys) :- DsAuthenticatedKeys(env, owner, ds, dnskeys);
    if delegation != Secure then Ok(delegation)
    else ValidateSignature(env, owner, keys, dnskeys, dnskeySigs, now)
  }

  /** One delegation: DS match, DS signature under the parent, key set signature under the child. */
  function ValidateLink(env: Env, owner: DnsName, dnskeys: seq<ResourceRecord>, link: Link, now: nat)
    : Result<Status, DnssecError>
  {
    var (delegation, keys) :- DsAuthenticatedKeys(env, link.childOwner, link.ds, link.dnskeys);
    if delegation != Secure then Ok(delegation)
    else
      var dsStatus :- ValidateSignature(env, owner, dnskeys, link.ds, link.dsSigs, now);
      if dsStatus != Secure then Ok(dsStatus)
      else ValidateSignature(env, link.childOwner, keys, link.dnskeys, link.dnskeySigs, now)
  }

  function ValidateLinks(env: Env, owner: DnsName, dnskeys: seq<ResourceRecord>, links: seq<Link>, input: ChainInput)
    : Result<Status, DnssecError>
    decreases |links|
  {
    if links == [] then ValidateSignature(env, owner, dnskeys, input.target, input.targetSigs, input.now)
    else
      var status :- ValidateLink(env, owner, dnskeys, links[0], input.now);
      if status != Secure then Ok(status)
      else ValidateLinks(env, links[0].childOwner, links[0].dnskeys, links[1..], input)
  }

  function ValidateChain(env: Env, input: ChainInput): Result<Status, DnssecError> {
    var status :- ValidateZone(env, input.owner, input.ds, input.dnskeys, input.dnskeySigs, input.now);
    if status != Secure then Ok(status)
    else ValidateLinks(env, input.owner, input.dnskeys, input.links, input)
  }

  method ValidateDnssecChain(env: Env, input: ChainInput) returns (r: Result<Status, DnssecError>)
    ensures r == ValidateChain(env, input)
  {
    var initial :- DsAuthenticatedKeys(env, input.owner, input.ds, input.dnskeys);
    if initial.0 != Secure {
      return Ok(initial.0);
    }
    var initialStatus :- ValidateRrsetSignature(
      env, input.owner, initial.1, input.dnskeys, input.dnskeySigs, input.now);
    if initialStatus != Secure {
      return Ok(initialStatus);
    }
    var owner, dnskeys := input.owner, input.dnskeys;
    for i := 0 to |input.links|
      invariant ValidateChain(env, input) == ValidateLinks(env, owner, dnskeys, input.links[i..], input)
    {
      var link := input.links[i];
      assert input.links[i..][1..] == input.links[i + 1..];
      var delegation :- DsAuthenticatedKeys(env, link.childOwner, link.ds, link.dnskeys);
      if delegation.0 != Secure {
        return Ok(delegation.0);
      }
      var dsStatus :- ValidateRrsetSignature(env, owner, dnskeys, link.ds, link.dsSigs, input.now);
      if dsStatus != Secure {
        return Ok(dsStatus);
      }
      var childStatus :- ValidateRrsetSignature(
        env, link.childOwner, delegation.1, link.dnskeys, link.dnskeySigs, input.now);
      if childStatus != Secure {
        return Ok(childStatus);
      }
      owner, dnskeys := link.childOwner, link.dnskeys;
    }
    r := ValidateRrsetSignature(env, owner, dnskeys, input.target, input.targetSigs, input.now);
  }
}
