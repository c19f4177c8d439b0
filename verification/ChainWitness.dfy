/**
 * Secure chains that pass through a zone which is not above the target. The root is honest, its child `e` is not, and
 * the target stands at `v`, whose own zone is honest and publishes nothing. What the root publishes at `e` is up to
 * `e`. In one chain `e` signs a target at `v`, in another the DS set at `e` vouches for a key at `v`, and a third
 * starts at `e` itself.
 */
module ChainWitness {
  import opened Wrappers
  import opened Dns
  import opened DnssecRecords
  import opened SignedData
  import opened SignedDataUnique
  import opened DnssecChain
  import opened DnssecSoundness
  import opened DnssecPlacement
  import opened WitnessRecords

  const ROOT: DnsName := []
  const E: DnsName := [[101]]
  const V: DnsName := [[118]]

  /** The two names that the DS set at `e` can speak for. */
  predicate Claimed(name: DnsName) {
    name == E || name == V
  }

  function WireOf(name: DnsName): seq<Byte>
    requires Claimed(name)
  {
    [1, name[0][0], 0]
  }

  lemma Wires()
    ensures EncodeName(ROOT) == [0] && EncodeName(E) == WireOf(E) && EncodeName(V) == WireOf(V)
  {
    assert E[1..] == [] && V[1..] == [];
    LowerAllIdentity(E[0]);
    LowerAllIdentity(V[0]);
  }

  /** Reads the three names of the zones. */
  function ParseKnown(data: seq<Byte>, at: nat): Option<(DnsName, nat)> {
    if at < |data| && data[at] == 0 then Some((ROOT, at + 1))
    else if at + 3 <= |data| && data[at..at + 3] == WireOf(E) then Some((E, at + 3))
    else if at + 3 <= |data| && data[at..at + 3] == WireOf(V) then Some((V, at + 3))
    else None
  }

  // ---- Records ----

  /** A DS record at `owner` for key `k` of the zone `name` with this wire form; the digest is the identity. */
  function DsOf(owner: DnsName, wire: seq<Byte>, k: KeyByte): ResourceRecord {
    ResourceRecord(owner, DS, 1, 0, [TagFor(k) / 256, TagFor(k) % 256, 15, 2] + (wire + KeyRdata(k)))
  }

  const ROOT_KEYS := KeyOf(ROOT, 1)

  function Delegation(name: DnsName): ResourceRecord
    requires Claimed(name)
  {
    DsOf(E, WireOf(name), 2)
  }

  const TARGET := ResourceRecord(V, TLSA, 1, 0, [9])

  function EnvFor(name: DnsName): Env
    requires Claimed(name)
  {
    Env(ParseKnown,
        (record: ResourceRecord) => Err(UnsupportedCanonicalRdata),
        (kind: Byte, data: seq<Byte>) => data,
        (algorithm: Byte, key: seq<Byte>, signature: seq<Byte>) => None,
        (algorithm: Byte, key: seq<Byte>, data: seq<Byte>, signature: seq<Byte>) =>
          key != [1] || data == SignedOf(ROOT_KEYS, 1, [0]) || data == SignedOf(Delegation(name), 1, [0]),
        (n: DnsName, iterations: U16, salt: seq<Byte>) => [])
  }

  /** The chain from the root to the claimed name. */
  function ChainTo(name: DnsName): ChainInput
    requires Claimed(name)
  {
    var link := Link(name, [Delegation(name)], [SigRecordOf(Delegation(name), 1, [0])],
                     [KeyOf(name, 2)], [SigRecordOf(KeyOf(name, 2), 2, WireOf(name))]);
    ChainInput(ROOT, [DsOf(ROOT, [0], 1)], [ROOT_KEYS], [SigRecordOf(ROOT_KEYS, 1, [0])],
               [link], [TARGET], [SigRecordOf(TARGET, 2, WireOf(name))], 1)
  }

  // ---- The chain is secure ----

  lemma DsMatches(name: DnsName, owner: DnsName, zone: DnsName, wire: seq<Byte>, k: KeyByte)
    requires Claimed(name) && EncodeName(zone) == wire
    ensures DsAuthenticatedKeys(EnvFor(name), zone, [DsOf(owner, wire, k)], [KeyOf(zone, k)])
         == Ok((Secure, [KeyOf(zone, k)]))
  {
    KeyParses(k);
    KeySetParses(zone, k);
    var (env, ds, keys) := (EnvFor(name), [DsOf(owner, wire, k)], [KeyOf(zone, k)]);
    var rdata := ds[0].rdata;
    assert rdata[4..] == wire + KeyRdata(k);
    var parsed := DsRecord(TagFor(k), 15, 2, wire + KeyRdata(k));
    assert ParseDs(rdata) == Ok(parsed);
    DsSetParses(ds[0], parsed);
    assert VerifyDs(env, zone, KeyRecordOf(k), parsed) == Ok(true);
    MatchesOne(env, zone, KeyRecordOf(k), parsed);
    assert keys[1..] == [] && keys + [] == keys;
    assert MatchedKeys(env, zone, [parsed], []) == Ok([]);
  }

  lemma DsSetParses(record: ResourceRecord, parsed: DsRecord)
    requires record.rtype == DS && ParseDs(record.rdata) == Ok(parsed)
    ensures ParseDsSet([record]) == Ok([parsed])
  {
    assert [record][1..] == [] && [parsed] + [] == [parsed];
  }

  lemma MatchesOne(env: Env, owner: DnsName, key: DnskeyRecord, ds: DsRecord)
    requires VerifyDs(env, owner, key, ds) == Ok(true)
    ensures MatchesAny(env, owner, key, [ds]) == Ok(true)
  {
    assert [ds][1..] == [];
  }

  lemma SignerRead(name: DnsName, record: ResourceRecord, k: KeyByte, signer: DnsName, wire: seq<Byte>)
    requires Claimed(name) && |record.name| < 256
    requires (signer == ROOT && wire == [0]) || (Claimed(signer) && wire == WireOf(signer))
    ensures ReadsSigner(EnvFor(name), SigRecordOf(record, k, wire).rdata, signer, wire)
  {
    Wires();
    var data := SigRecordOf(record, k, wire).rdata;
    SigBytes(record.rtype, |record.name|, TagFor(k), wire, data);
    KnownAt(data, 18, signer, wire);
  }

  lemma KnownAt(data: seq<Byte>, at: nat, signer: DnsName, wire: seq<Byte>)
    requires at + |wire| <= |data| && data[at..at + |wire|] == wire
    requires (signer == ROOT && wire == [0]) || (Claimed(signer) && wire == WireOf(signer))
    ensures ParseKnown(data, at) == Some((signer, at + |wire|))
  {
    assert data[at] == data[at..at + |wire|][0];
    if Claimed(signer) && wire == WireOf(signer) {
      assert WireOf(signer)[1] == signer[0][0];
    }
  }

  lemma RecordPlain(name: DnsName, record: ResourceRecord)
    requires Claimed(name) && record.rtype in {DNSKEY, DS, TLSA} && |record.name| < 256 && |record.rdata| <= 0xffff
    ensures Plain(EnvFor(name), record)
  {
  }

  lemma RecordSecure(name: DnsName, record: ResourceRecord, k: KeyByte, signer: DnsName, wire: seq<Byte>)
    requires Claimed(name) && record.rtype in {DNSKEY, DS, TLSA} && |record.name| < 256 && |record.rdata| <= 0xffff
    requires (signer == ROOT && wire == [0]) || (Claimed(signer) && wire == WireOf(signer))
    requires k != 1 || (wire == [0] && (record == ROOT_KEYS || record == Delegation(name)))
    ensures ValidateSignature(EnvFor(name), signer, [KeyOf(signer, k)], [record], [SigRecordOf(record, k, wire)], 1)
         == Ok(Secure)
  {
    SignerRead(name, record, k, signer, wire);
    RecordPlain(name, record);
    OneSecure(EnvFor(name), record, signer, k, signer, wire);
  }

  lemma ChainIsSecure(name: DnsName)
    requires Claimed(name)
    ensures ValidateChain(EnvFor(name), ChainTo(name)) == Ok(Secure)
  {
    var (env, input) := (EnvFor(name), ChainTo(name));
    Wires();
    DsMatches(name, ROOT, ROOT, [0], 1);
    RecordSecure(name, ROOT_KEYS, 1, ROOT, [0]);
    assert ValidateZone(env, ROOT, input.ds, input.dnskeys, input.dnskeySigs, 1) == Ok(Secure);
    LinkIsSecure(name);
    RecordSecure(name, TARGET, 2, name, WireOf(name));
    assert input.links[1..] == [];
    assert ValidateLinks(env, name, [KeyOf(name, 2)], [], input) == Ok(Secure);
  }

  lemma LinkIsSecure(name: DnsName)
    requires Claimed(name)
    ensures ValidateLink(EnvFor(name), ROOT, [ROOT_KEYS], ChainTo(name).links[0], 1) == Ok(Secure)
  {
    Wires();
    DsMatches(name, E, name, WireOf(name), 2);
    RecordSecure(name, Delegation(name), 1, ROOT, [0]);
    RecordSecure(name, KeyOf(name, 2), 2, name, WireOf(name));
  }

  // ---- The world behind it ----

  /** Every zone but `e` is honest. Only the root has keys and publishes: its key set, and the DS set of `e`. */
  ghost function WorldFor(name: DnsName): World
    requires Claimed(name)
  {
    World((zone: DnsName) => zone != E,
          (zone: DnsName, rdata: seq<Byte>) => zone == ROOT && rdata == KeyRdata(1),
          (zone: DnsName, content: Content) =>
            zone == ROOT && (content == ContentFor(ROOT_KEYS) || content == ContentFor(Delegation(name))))
  }

  lemma RecordPublished(name: DnsName, record: ResourceRecord)
    requires Claimed(name) && (record == ROOT_KEYS || record == Delegation(name))
    ensures SignedFor(EnvFor(name), WorldFor(name), ROOT, SignedOf(record, 1, [0]))
  {
    SignerRead(name, record, 1, ROOT, [0]);
    RecordPlain(name, record);
    assert WorldFor(name).published(ROOT, ContentFor(record));
    OnePublished(EnvFor(name), WorldFor(name), ROOT, record, 1, ROOT, [0]);
  }

  lemma RootUnforgeable(name: DnsName)
    requires Claimed(name)
    ensures Unforgeable(EnvFor(name), WorldFor(name))
  {
    KeyParses(1);
    RecordPublished(name, ROOT_KEYS);
    RecordPublished(name, Delegation(name));
  }

  lemma RootPublishesHonestly(name: DnsName)
    requires Claimed(name)
    ensures HonestKeySets(WorldFor(name)) && PublishesOwnDigests(EnvFor(name), WorldFor(name))
  {
    forall zone: DnsName, content: Content | WorldFor(name).published(zone, content)
      ensures HonestKeySet(WorldFor(name), zone, content) && (content.rtype == DS ==> content.owner == E)
    {
      assert zone == ROOT && (content == ContentFor(ROOT_KEYS) || content == ContentFor(Delegation(name)));
    }
  }

  lemma DigestIsIdentity(name: DnsName)
    requires Claimed(name)
    ensures DigestsDiffer(EnvFor(name))
  {
    forall kind: Byte, owner: DnsName, a: seq<Byte>, b: seq<Byte>
      | EnvFor(name).digest(kind, EncodeName(owner) + a) == EnvFor(name).digest(kind, EncodeName(owner) + b)
      ensures a == b
    {
      NamePrefixCode(owner, a, owner, b);
    }
  }

  lemma OnlyRootPublishes(name: DnsName, zone: DnsName, content: Content)
    requires Claimed(name) && WorldFor(name).published(zone, content)
    ensures content.rtype != TARGET.rtype && !Describes(EnvFor(name), content, ChainTo(name).target)
  {
  }

  lemma AnchorIsHonest(name: DnsName)
    requires Claimed(name)
    ensures HonestAnchor(EnvFor(name), WorldFor(name), ROOT, ChainTo(name).ds)
  {
    Wires();
    var rdata := DsOf(ROOT, [0], 1).rdata;
    assert rdata[4..] == [0] + KeyRdata(1);
    forall key: DnskeyRecord | Faithful(key) && Vouches(EnvFor(name), ROOT, ChainTo(name).ds, key)
      ensures WorldFor(name).genuine(ROOT, key.rdata)
    {
      assert VouchedBy(EnvFor(name), ROOT, rdata, key);
      NamePrefixCode(ROOT, key.rdata, ROOT, KeyRdata(1));
    }
  }

  /** Of the three comparisons each chain fails one. */
  lemma AllButOne(name: DnsName)
    requires Claimed(name)
    ensures HonestAbove(WorldFor(name), V)
    ensures !Placed(ROOT, ChainTo(name).links, V)
    ensures IsStrictSubdomain(name, ROOT) && LastZone(ROOT, ChainTo(name).links) == name
    ensures name == E ==> ChainTo(name).links[0].ds[0].name == name && !AtOrBelow(V, name)
    ensures name == V ==> ChainTo(name).links[0].ds[0].name != name && AtOrBelow(V, name)
  {
    assert !AtOrBelow(V, E);
    assert ChainTo(name).links[1..] == [];
  }

  /**
   * Through either name the chain is secure, the zones above the target and the anchor are honest, and yet no zone
   * published the target. One target lies outside the last zone, the other DS set does not stand at the child.
   */
  lemma UnplacedChain(name: DnsName)
    requires Claimed(name)
    ensures var (env, world, input) := (EnvFor(name), WorldFor(name), ChainTo(name));
            && Unforgeable(env, world) && HonestKeySets(world)
            && PublishesOwnDigests(env, world) && DigestsDiffer(env)
            && HonestAbove(world, V) && HonestAnchor(env, world, input.owner, input.ds)
            && ValidateChain(env, input) == Ok(Secure)
            && !Placed(input.owner, input.links, V)
            && (forall zone, content: Content | world.published(zone, content) ::
                  !Describes(env, content, input.target))
    ensures IsStrictSubdomain(name, ROOT) && LastZone(ROOT, ChainTo(name).links) == name
    ensures name == E ==> ChainTo(name).links[0].ds[0].name == name && !AtOrBelow(V, name)
    ensures name == V ==> ChainTo(name).links[0].ds[0].name != name && AtOrBelow(V, name)
  {
    RootUnforgeable(name);
    RootPublishesHonestly(name);
    DigestIsIdentity(name);
    AnchorIsHonest(name);
    ChainIsSecure(name);
    AllButOne(name);
    forall zone, content: Content | WorldFor(name).published(zone, content)
      ensures !Describes(EnvFor(name), content, ChainTo(name).target)
    {
      OnlyRootPublishes(name, zone, content);
    }
  }

  // ---- A chain that starts elsewhere ----

  /** From `e` itself, which vouches at `v` for a key of its own. */
  function StrayChain(): ChainInput {
    var ds := DsOf(V, WireOf(V), 2);
    var link := Link(V, [ds], [SigRecordOf(ds, 2, WireOf(E))],
                     [KeyOf(V, 2)], [SigRecordOf(KeyOf(V, 2), 2, WireOf(V))]);
    ChainInput(E, [DsOf(E, WireOf(E), 2)], [KeyOf(E, 2)], [SigRecordOf(KeyOf(E, 2), 2, WireOf(E))],
               [link], [TARGET], [SigRecordOf(TARGET, 2, WireOf(V))], 1)
  }

  ghost function StrayWorld(): World {
    World((zone: DnsName) => zone != E,
          (zone: DnsName, rdata: seq<Byte>) => zone == E && rdata == KeyRdata(2),
          (zone: DnsName, content: Content) => false)
  }

  lemma StrayIsSecure()
    ensures ValidateChain(EnvFor(V), StrayChain()) == Ok(Secure)
  {
    var (env, input) := (EnvFor(V), StrayChain());
    Wires();
    DsMatches(V, E, E, WireOf(E), 2);
    RecordSecure(V, KeyOf(E, 2), 2, E, WireOf(E));
    assert ValidateZone(env, E, input.ds, input.dnskeys, input.dnskeySigs, 1) == Ok(Secure);
    StrayLinkIsSecure();
    RecordSecure(V, TARGET, 2, V, WireOf(V));
    assert input.links[1..] == [];
    assert ValidateLinks(env, V, [KeyOf(V, 2)], [], input) == Ok(Secure);
  }

  lemma StrayLinkIsSecure()
    ensures ValidateLink(EnvFor(V), E, [KeyOf(E, 2)], StrayChain().links[0], 1) == Ok(Secure)
  {
    Wires();
    DsMatches(V, V, V, WireOf(V), 2);
    RecordSecure(V, DsOf(V, WireOf(V), 2), 2, E, WireOf(E));
    RecordSecure(V, KeyOf(V, 2), 2, V, WireOf(V));
  }

  lemma StrayAnchor()
    ensures HonestAnchor(EnvFor(V), StrayWorld(), E, StrayChain().ds)
  {
    Wires();
    var rdata := DsOf(E, WireOf(E), 2).rdata;
    assert rdata[4..] == WireOf(E) + KeyRdata(2);
    forall key: DnskeyRecord | Faithful(key) && Vouches(EnvFor(V), E, StrayChain().ds, key)
      ensures StrayWorld().genuine(E, key.rdata)
    {
      assert VouchedBy(EnvFor(V), E, rdata, key);
      NamePrefixCode(E, key.rdata, E, KeyRdata(2));
    }
  }

  /** The DS set stands at the child and the target lies in the last zone, but the child is not below its parent. */
  lemma StrayChainUnplaced()
    ensures var (env, world, input) := (EnvFor(V), StrayWorld(), StrayChain());
            && Unforgeable(env, world) && HonestKeySets(world)
            && PublishesOwnDigests(env, world) && DigestsDiffer(env)
            && HonestAbove(world, V) && HonestAnchor(env, world, input.owner, input.ds)
            && ValidateChain(env, input) == Ok(Secure)
            && !IsStrictSubdomain(V, input.owner) && input.links[0].ds[0].name == V == LastZone(E, input.links)
            && (forall zone, content: Content :: !world.published(zone, content))
  {
    StrayIsSecure();
    StrayAnchor();
    DigestIsIdentity(V);
    assert !AtOrBelow(V, E);
    assert StrayChain().links[1..] == [];
  }
}
