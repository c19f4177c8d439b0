/** Signed RRsets of one record, for concrete zones: Ed25519 keys of one byte, and signatures valid at any time. */
module WitnessRecords {
  import opened Wrappers
  import opened Dns
  import opened DnssecRecords
  import opened SignedData
  import opened SignedDataUnique
  import opened DnssecChain
  import opened DnssecSoundness

  type KeyByte = k: Byte | k < 200

  // ---- Keys ----

  function KeyRdata(k: KeyByte): seq<Byte> {
    [1, 0, 3, 15, k]
  }

  function KeyOf(owner: DnsName, k: KeyByte): ResourceRecord {
    ResourceRecord(owner, DNSKEY, 1, 0, KeyRdata(k))
  }

  function KeyRecordOf(k: KeyByte): DnskeyRecord {
    DnskeyRecord(256, 15, [k], KeyRdata(k))
  }

  function TagFor(k: KeyByte): U16 {
    1039 + 256 * k
  }

  lemma KeyParses(k: KeyByte)
    ensures ParseDnskey(KeyRdata(k)) == Ok(KeyRecordOf(k)) && Faithful(KeyRecordOf(k))
    ensures KeyRecordOf(k).KeyTag() == TagFor(k) && KeyRecordOf(k).IsZoneKey()
  {
    var r := KeyRdata(k);
    assert r[4..] == [k];
    assert r[..4][..3] == r[..3] && r[..3][..2] == r[..2] && r[..2][..1] == r[..1] && r[..1][..0] == [];
    assert TagSum(r[..1]) == 256;
    assert TagSum(r[..2]) == 256;
    assert TagSum(r[..3]) == 1024;
    assert TagSum(r[..4]) == 1039;
    assert TagSum(r) == 1039 + 256 * k;
  }

  lemma KeySetParses(owner: DnsName, k: KeyByte)
    ensures ParseKeySet([KeyOf(owner, k)]) == Ok([KeyRecordOf(k)]) && KeyIn(KeyRecordOf(k), [KeyOf(owner, k)])
  {
    KeyParses(k);
    var (keys, records) := ([KeyOf(owner, k)], [KeyRecordOf(k)]);
    assert keys[1..] == [] && records + [] == records && keys[0] in keys;
  }

  // ---- Signatures ----

  /** The fixed fields of an RRSIG: no expiry that matters, and no original lifetime. */
  function Fixed(rtype: U16, labels: Byte, tag: U16): seq<Byte> {
    [rtype / 256, rtype % 256, 15, labels, 0, 0, 0, 0, 255, 255, 255, 255, 0, 0, 0, 0, tag / 256, tag % 256]
  }

  function SigRdata(rtype: U16, labels: Byte, tag: U16, wire: seq<Byte>): seq<Byte> {
    Fixed(rtype, labels, tag) + wire + [1]
  }

  function SigOf(rtype: U16, labels: Byte, tag: U16, signer: DnsName, wire: seq<Byte>): RrsigRecord {
    RrsigRecord(rtype, 15, labels, 0, 0xffff_ffff, 0, tag, signer, [1], Fixed(rtype, labels, tag) + wire)
  }

  /** A record that signs like an opaque one: its data is canonical as it stands. */
  predicate Plain(env: Env, record: ResourceRecord) {
    |record.name| < 256 && |record.rdata| <= 0xffff && CanonicalRdata(env, record) == Ok(record.rdata)
  }

  function SigRecordOf(record: ResourceRecord, k: KeyByte, wire: seq<Byte>): ResourceRecord
    requires |record.name| < 256
  {
    ResourceRecord(record.name, RRSIG, record.rclass, 0, SigRdata(record.rtype, |record.name|, TagFor(k), wire))
  }

  /** The bytes that the signature of key `k` of the signer with this wire name covers. */
  function SignedOf(record: ResourceRecord, k: KeyByte, wire: seq<Byte>): seq<Byte>
    requires |record.name| < 256 && |record.rdata| <= 0xffff
  {
    Fixed(record.rtype, |record.name|, TagFor(k)) + wire
    + Wires(WireHead(record.name, record.rtype, record.rclass, 0), [record.rdata])
  }

  predicate ReadsSigner(env: Env, data: seq<Byte>, signer: DnsName, wire: seq<Byte>) {
    EncodeName(signer) == wire && env.parseName(data, 18) == Some((signer, 18 + |wire|))
  }

  lemma SigBytes(rtype: U16, labels: Byte, tag: U16, wire: seq<Byte>, data: seq<Byte>)
    requires data == SigRdata(rtype, labels, tag, wire)
    ensures |data| == 19 + |wire| && data[..18] == Fixed(rtype, labels, tag) && data[18 + |wire|..] == [1]
    ensures data[18..18 + |wire|] == wire
    ensures forall i | 0 <= i < 18 :: data[i] == Fixed(rtype, labels, tag)[i]
  {
  }

  lemma SigParses(env: Env, rtype: U16, labels: Byte, tag: U16, signer: DnsName, wire: seq<Byte>)
    requires ReadsSigner(env, SigRdata(rtype, labels, tag, wire), signer, wire) && wire != []
    ensures ParseRrsig(env, SigRdata(rtype, labels, tag, wire)) == Ok(SigOf(rtype, labels, tag, signer, wire))
    ensures SigOf(rtype, labels, tag, signer, wire).WellFormed()
  {
    var data := SigRdata(rtype, labels, tag, wire);
    SigBytes(rtype, labels, tag, wire, data);
    assert U16At(data, 0) == rtype && U32At(data, 4) == 0 && U16At(data, 16) == tag;
    assert U32At(data, 8) == 0xffff_ffff && U32At(data, 12) == 0;
  }

  lemma SortedOne(x: ShortBytes)
    ensures Sorted([x]) == [x]
  {
    assert [x][1..] == [];
  }

  lemma OneCanonical(env: Env, record: ResourceRecord, rrsig: RrsigRecord)
    requires Plain(env, record) && rrsig.typeCovered == record.rtype && rrsig.labels == |record.name|
    ensures CanonicalRrset(env, [record], rrsig)
         == Ok(Canonical(record.name, record.rtype, record.rclass, [record.rdata]))
  {
    assert CanonicalRecord(env, record, record.name, rrsig, record) == Ok(record.rdata);
    assert [record][1..] == [];
    assert CanonicalRecords(env, record, record.name, rrsig, [record]) == Ok([record.rdata] + []);
    assert [record.rdata] + [] == [record.rdata];
  }

  lemma OneSigned(env: Env, record: ResourceRecord, k: KeyByte, signer: DnsName, wire: seq<Byte>, rrsig: RrsigRecord)
    requires Plain(env, record) && rrsig == SigOf(record.rtype, |record.name|, TagFor(k), signer, wire)
    ensures SignedBytes(env, [record], rrsig, 1) == Ok(SignedOf(record, k, wire))
  {
    OneCanonical(env, record, rrsig);
    SortedOne(record.rdata);
  }

  lemma SigSetParses(env: Env, record: ResourceRecord, k: KeyByte, signer: DnsName, wire: seq<Byte>)
    requires |record.name| < 256 && wire != []
    requires ReadsSigner(env, SigRecordOf(record, k, wire).rdata, signer, wire)
    ensures ParseSigSet(env, [SigRecordOf(record, k, wire)], record.name, record.rclass).Ok?
    ensures SigIn(env, SigOf(record.rtype, |record.name|, TagFor(k), signer, wire),
                  [SigRecordOf(record, k, wire)], [record])
  {
    SigParses(env, record.rtype, |record.name|, TagFor(k), signer, wire);
    var sigs := [SigRecordOf(record, k, wire)];
    assert sigs[1..] == [] && sigs[0] in sigs;
  }

  /** The signature of one record by a key that verifies its bytes validates. */
  lemma OneSecure(env: Env, record: ResourceRecord, keyOwner: DnsName, k: KeyByte, signer: DnsName, wire: seq<Byte>)
    requires Plain(env, record) && wire != [] && ReadsSigner(env, SigRecordOf(record, k, wire).rdata, signer, wire)
    requires env.malformed(15, [k], [1]).None? && env.verifies(15, [k], SignedOf(record, k, wire), [1])
    ensures ValidateSignature(env, signer, [KeyOf(keyOwner, k)], [record], [SigRecordOf(record, k, wire)], 1)
         == Ok(Secure)
  {
    var rrsig := SigOf(record.rtype, |record.name|, TagFor(k), signer, wire);
    KeyParses(k);
    KeySetParses(keyOwner, k);
    SigSetParses(env, record, k, signer, wire);
    OneSigned(env, record, k, signer, wire, rrsig);
    assert Signs(env, signer, KeyRecordOf(k), [record], rrsig, 1);
    SecureIffSigned(env, signer, [KeyOf(keyOwner, k)], [record], [SigRecordOf(record, k, wire)], 1);
  }

  // ---- Published content ----

  ghost function ContentFor(record: ResourceRecord): Content {
    Content(record.name, record.rtype, record.rclass, iset{record.rdata})
  }

  lemma ContentOfOne(record: ResourceRecord, c: Canonical)
    requires |record.rdata| <= 0xffff && c == Canonical(record.name, record.rtype, record.rclass, [record.rdata])
    ensures ContentOf(c) == ContentFor(record)
  {
    assert ContentOf(c).rdatas == iset{record.rdata};
  }

  /** A zone that publishes the record's content signs the record's bytes for it. */
  lemma OnePublished(env: Env, world: World, zone: DnsName, record: ResourceRecord, k: KeyByte, signer: DnsName,
                     wire: seq<Byte>)
    requires Plain(env, record) && wire != [] && ReadsSigner(env, SigRecordOf(record, k, wire).rdata, signer, wire)
    requires world.published(zone, ContentFor(record))
    ensures SignedFor(env, world, zone, SignedOf(record, k, wire))
  {
    var rrsig := SigOf(record.rtype, |record.name|, TagFor(k), signer, wire);
    SigParses(env, record.rtype, |record.name|, TagFor(k), signer, wire);
    OneCanonical(env, record, rrsig);
    OneSigned(env, record, k, signer, wire, rrsig);
    ContentOfOne(record, CanonicalRrset(env, [record], rrsig).value);
  }
}
