/** The canonical bytes a signature covers: they determine the RRset, and nothing but the RRset and the RRSIG. */
module SignedData {
  import opened Wrappers
  import opened Order
  import opened Dns
  import opened DnssecRecords

  // ---- Canonical RDATA ----

  function NameThenEnd(env: Env, rdata: seq<Byte>, start: nat): Result<DnsName, DnssecError> {
    match env.parseName(rdata, start)
    case Some((name, end)) => if end == |rdata| then Ok(name) else Err(InvalidRrset)
    case None => Err(InvalidRrset)
  }

  function CanonicalSoa(env: Env, rdata: seq<Byte>): Result<seq<Byte>, DnssecError> {
    match env.parseName(rdata, 0)
    case None => Err(InvalidRrset)
    case Some((mname, middle)) =>
      match env.parseName(rdata, middle)
      case None => Err(InvalidRrset)
      case Some((rname, end)) =>
        if end + 20 != |rdata| then Err(InvalidRrset)
        else Ok(EncodeName(mname) + EncodeName(rname) + rdata[end..])
  }

  function CanonicalRdata(env: Env, record: ResourceRecord): Result<seq<Byte>, DnssecError> {
    if record.rtype == NS || record.rtype == CNAME then
      var name :- NameThenEnd(env, record.rdata, 0);
      Ok(EncodeName(name))
    else if record.rtype == SOA then CanonicalSoa(env, record.rdata)
    else if record.rtype == SRV then
      if |record.rdata| < 6 then Err(InvalidRrset)
      else
        var target :- NameThenEnd(env, record.rdata, 6);
        Ok(record.rdata[..6] + EncodeName(target))
    else if record.rtype == NSEC then
      var nsec :- ParseNsec(env, record.rdata);
      Ok(EncodeName(nsec.next) + nsec.bitmap)
    else if record.rtype == NSEC3 then
      var _ :- ParseNsec3(record.rdata);
      Ok(record.rdata)
    else if record.rtype == SVCB || record.rtype == HTTPS then env.canonicalSvcb(record)
    else if record.rtype == RRSIG then Err(UnsupportedCanonicalRdata)
    else Ok(record.rdata)
  }

  // ---- Canonical RRsets ----

  /** The owner under a label count: itself, or the wildcard over its last labels. */
  function CanonicalOwner(owner: DnsName, labels: nat): Result<DnsName, DnssecError> {
    if labels > |owner| then Err(InvalidRrset)
    else if labels < |owner| then Ok([STAR] + owner[|owner| - labels..])
    else Ok(owner)
  }

  function Be16(x: U16): seq<Byte> {
    [x / 256, x % 256]
  }

  function Be32(x: U32): seq<Byte> {
    Be16(x / 0x1_0000) + Be16(x % 0x1_0000)
  }

  /** What all records of an RRset put in front of their RDATA. */
  function WireHead(owner: DnsName, rtype: U16, rclass: U16, ttl: U32): seq<Byte> {
    EncodeName(owner) + (Be16(rtype) + Be16(rclass) + Be32(ttl))
  }

  function Wire(head: seq<Byte>, rdata: seq<Byte>): seq<Byte>
    requires |rdata| <= 0xffff
  {
    head + (Be16(|rdata|) + rdata)
  }

  type ShortBytes = s: seq<Byte> | |s| <= 0xffff

  function Wires(head: seq<Byte>, rdatas: seq<ShortBytes>): seq<Byte> {
    if rdatas == [] then [] else Wire(head, rdatas[0]) + Wires(head, rdatas[1..])
  }

  function CanonicalRecord(env: Env, first: ResourceRecord, owner: DnsName, rrsig: RrsigRecord, record: ResourceRecord)
    : Result<ShortBytes, DnssecError>
  {
    if record.rtype != first.rtype || record.rclass != first.rclass then Err(InvalidRrset)
    else
      var recordOwner :- CanonicalOwner(record.name, rrsig.labels);
      if recordOwner != owner then Err(InvalidRrset)
      else
        var rdata :- CanonicalRdata(env, record);
        if |rdata| > 0xffff then Err(InvalidRrset) else Ok(rdata)
  }

  function CanonicalRecords(env: Env, first: ResourceRecord, owner: DnsName, rrsig: RrsigRecord,
                            records: seq<ResourceRecord>): Result<seq<ShortBytes>, DnssecError>
  {
    if records == [] then Ok([])
    else
      var rdata :- CanonicalRecord(env, first, owner, rrsig, records[0]);
      var rest :- CanonicalRecords(env, first, owner, rrsig, records[1..]);
      Ok([rdata] + rest)
  }

  // ---- Sorting ----

  function CompareRdata(a: seq<Byte>, b: seq<Byte>): Ordering {
    Lexicographic(CompareBytes, a, b)
  }

  function InsertSorted(x: ShortBytes, s: seq<ShortBytes>): seq<ShortBytes> {
    if s == [] || CompareRdata(x, s[0]) != Greater then [x] + s else [s[0]] + InsertSorted(x, s[1..])
  }

  function Sorted(s: seq<ShortBytes>): seq<ShortBytes> {
    if s == [] then [] else InsertSorted(s[0], Sorted(s[1..]))
  }

  predicate NoNeighboursEqual(s: seq<ShortBytes>) {
    forall i | 0 <= i < |s| - 1 :: s[i] != s[i + 1]
  }

  /** The canonical content of an RRset under one RRSIG. */
  datatype Canonical = Canonical(owner: DnsName, rtype: U16, rclass: U16, rdatas: seq<ShortBytes>)

  function CanonicalRrset(env: Env, rrset: seq<ResourceRecord>, rrsig: RrsigRecord): Result<Canonical, DnssecError> {
    if rrset == [] || rrset[0].rtype != rrsig.typeCovered then Err(InvalidRrset)
    else
      var owner :- CanonicalOwner(rrset[0].name, rrsig.labels);
      var rdatas :- CanonicalRecords(env, rrset[0], owner, rrsig, rrset);
      Ok(Canonical(owner, rrset[0].rtype, rrset[0].rclass, rdatas))
  }

  function SignedBytes(env: Env, rrset: seq<ResourceRecord>, rrsig: RrsigRecord, now: nat)
    : Result<seq<Byte>, DnssecError>
  {
    if !rrsig.ValidAt(now) then Err(SignatureOutsideValidity)
    else
      var canonical :- CanonicalRrset(env, rrset, rrsig);
      var rdatas := Sorted(canonical.rdatas);
      if !NoNeighboursEqual(rdatas) then Err(InvalidRrset)
      else
        var head := WireHead(canonical.owner, canonical.rtype, canonical.rclass, rrsig.originalTtl);
        Ok(rrsig.signedRdata + Wires(head, rdatas))
  }

  method BuildSignedData(env: Env, rrset: seq<ResourceRecord>, rrsig: RrsigRecord, now: nat)
    returns (r: Result<seq<Byte>, DnssecError>)
    ensures r == SignedBytes(env, rrset, rrsig, now)
  {
    if !rrsig.ValidAt(now) {
      return Err(SignatureOutsideValidity);
    }
    var canonical :- CanonicalRrset(env, rrset, rrsig);
    var rdatas := Sorted(canonical.rdatas);
    for i := 0 to |rdatas|
      invariant forall k | 0 <= k < i && k < |rdatas| - 1 :: rdatas[k] != rdatas[k + 1]
    {
      if i + 1 < |rdatas| && rdatas[i] == rdatas[i + 1] {
        return Err(InvalidRrset);
      }
    }
    var head := WireHead(canonical.owner, canonical.rtype, canonical.rclass, rrsig.originalTtl);
    var out := rrsig.signedRdata;
    for i := 0 to |rdatas|
      invariant out + Wires(head, rdatas[i..]) == rrsig.signedRdata + Wires(head, rdatas)
    {
      assert rdatas[i..][1..] == rdatas[i + 1..];
      assert out + (Wire(head, rdatas[i]) + Wires(head, rdatas[i + 1..]))
          == out + Wire(head, rdatas[i]) + Wires(head, rdatas[i + 1..]);
      out := out + Wire(head, rdatas[i]);
    }
    assert out + Wires(head, []) == out;
    return Ok(out);
  }
}
