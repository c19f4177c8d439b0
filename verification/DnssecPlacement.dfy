/**
 * Where the zones of a chain lie. The validator compares no names along a chain: a child need not lie below its
 * parent, a DS set need not stand at the child, and the target need not lie in the last zone. With these three
 * comparisons made, only the zones above the target need be honest, and of DS sets it is enough that those at honest
 * names hold digests of genuine keys.
 */
module DnssecPlacement {
  import opened Wrappers
  import opened Dns
  import opened DnssecRecords
  import opened SignedDataUnique
  import opened DnssecChain
  import opened DnssecSoundness

  /** The three comparisons. */
  predicate Placed(owner: DnsName, links: seq<Link>, target: DnsName)
    decreases |links|
  {
    if links == [] then AtOrBelow(target, owner)
    else
      && IsStrictSubdomain(links[0].childOwner, owner)
      && links[0].ds != [] && links[0].ds[0].name == links[0].childOwner
      && Placed(links[0].childOwner, links[1..], target)
  }

  lemma BelowTransitive(a: DnsName, b: DnsName, c: DnsName)
    requires AtOrBelow(a, b) && AtOrBelow(b, c)
    ensures AtOrBelow(a, c)
  {
    assert a[|a| - |c|..] == a[|a| - |b|..][|b| - |c|..];
  }

  /** All zones of a placed chain lie above the target. */
  lemma {:induction false} PlacedAbove(owner: DnsName, links: seq<Link>, target: DnsName)
    requires Placed(owner, links, target)
    ensures AtOrBelow(target, owner) && AtOrBelow(target, LastZone(owner, links))
    ensures forall link <- links :: AtOrBelow(target, link.childOwner)
    decreases |links|
  {
    if links != [] {
      PlacedAbove(links[0].childOwner, links[1..], target);
      BelowTransitive(target, links[0].childOwner, owner);
      assert forall link <- links :: link == links[0] || link in links[1..];
    }
  }

  // ---- Digests ----

  /** A DS record at its owner: the digest of a genuine key of the owner. */
  ghost predicate OwnDigest(env: Env, world: World, owner: DnsName, rdata: seq<Byte>) {
    ParseDs(rdata).Ok? ==>
      var ds := ParseDs(rdata).value;
      exists key :: world.genuine(owner, key) && ds.digest == env.digest(ds.digestType, EncodeName(owner) + key)
  }

  /**
   * An honest zone publishes at an honest child what the child hands it: digests of the child's keys. What it publishes
   * at any other child is up to that child.
   */
  ghost predicate PublishesOwnDigests(env: Env, world: World) {
    forall zone: DnsName, content: Content
      | && world.honest(zone) && world.published(zone, content)
        && content.rtype == DS && world.honest(content.owner)
      :: forall rdata <- content.rdatas :: OwnDigest(env, world, content.owner, rdata)
  }

  /** Two keys of one owner do not share a digest. */
  ghost predicate DigestsDiffer(env: Env) {
    forall kind: Byte, owner: DnsName, a: seq<Byte>, b: seq<Byte>
      | env.digest(kind, EncodeName(owner) + a) == env.digest(kind, EncodeName(owner) + b) :: a == b
  }

  lemma OwnDigestVouches(env: Env, world: World, content: Content)
    requires DigestsDiffer(env) && forall rdata <- content.rdatas :: OwnDigest(env, world, content.owner, rdata)
    ensures VouchesGenuine(env, world, content, content.owner)
  {
    var owner := content.owner;
    forall rdata <- content.rdatas, key: DnskeyRecord | Faithful(key) && VouchedBy(env, owner, rdata, key)
      ensures world.genuine(owner, key.rdata)
    {
      assert OwnDigest(env, world, owner, rdata);
      var ds := ParseDs(rdata).value;
      var own :| world.genuine(owner, own) && ds.digest == env.digest(ds.digestType, EncodeName(owner) + own);
      assert env.digest(ds.digestType, EncodeName(owner) + key.rdata)
          == env.digest(ds.digestType, EncodeName(owner) + own);
    }
  }

  lemma {:induction false} PlacedDelegationsSound(env: Env, world: World, owner: DnsName, links: seq<Link>,
                                                  target: DnsName)
    requires PublishesOwnDigests(env, world) && DigestsDiffer(env)
    requires HonestChain(world, owner, links) && Placed(owner, links, target)
    ensures DelegationsSound(env, world, owner, links)
    decreases |links|
  {
    if links != [] {
      var link := links[0];
      forall content: Content | world.published(owner, content) && Describes(env, content, link.ds)
        ensures VouchesGenuine(env, world, content, link.childOwner)
      {
        if content.rtype == DS {
          OwnDigestVouches(env, world, content);
        }
      }
      PlacedDelegationsSound(env, world, link.childOwner, links[1..], target);
    }
  }

  /** The target's own zone and the zones above it are honest. */
  ghost predicate HonestAbove(world: World, target: DnsName) {
    forall zone: DnsName | AtOrBelow(target, zone) :: world.honest(zone)
  }

  /**
   * With the names compared, a secure target is published by the last zone, which lies above it, if only the zones
   * above the target are honest.
   */
  lemma SecureWhenPlaced(env: Env, world: World, input: ChainInput)
    requires Unforgeable(env, world) && HonestKeySets(world)
    requires PublishesOwnDigests(env, world) && DigestsDiffer(env)
    requires input.target != [] && HonestAbove(world, input.target[0].name)
    requires HonestAnchor(env, world, input.owner, input.ds)
    requires Placed(input.owner, input.links, input.target[0].name) && ValidateChain(env, input) == Ok(Secure)
    ensures AtOrBelow(input.target[0].name, LastZone(input.owner, input.links))
    ensures exists content: Content ::
              world.published(LastZone(input.owner, input.links), content) && Describes(env, content, input.target)
  {
    var target := input.target[0].name;
    PlacedAbove(input.owner, input.links, target);
    PlacedDelegationsSound(env, world, input.owner, input.links, target);
    var content := SecureOverSoundDelegations(env, world, input);
  }
}
