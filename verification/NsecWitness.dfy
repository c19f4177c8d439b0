/**
 * A small signed zone: the root, the wildcard `*.a`, and the delegation `b.a`. Its key verifies only what the zone
 * publishes; every other key, an adversary's, verifies anything. Three name errors that are secure and yet deny less
 * than one might think: that of `a`, which exists through the names below it; that of `z.a`, for which the wildcard
 * `*.a` answers, when the caller names the root as closest encloser; and that of `z.b.a`, which is the child zone's to
 * deny.
 */
module NsecWitness {
  import opened Wrappers
  import opened Order
  import opened Dns
  import opened TypeBitmap
  import opened DnssecRecords
  import opened SignedData
  import opened SignedDataUnique
  import opened DnssecChain
  import opened DnssecSoundness
  import opened Nsec
  import opened NsecEncloser
  import opened DenialSoundness
  import opened WitnessRecords

  const LABEL_A: Label := [97]
  const LABEL_B: Label := [98]
  const LABEL_Z: Label := [122]

  const APEX: DnsName := []
  const A: DnsName := [LABEL_A]
  const STAR_A: DnsName := [STAR, LABEL_A]
  const B_A: DnsName := [LABEL_B, LABEL_A]
  const Z_A: DnsName := [LABEL_Z, LABEL_A]
  const Z_B_A: DnsName := [LABEL_Z, LABEL_B, LABEL_A]

  const OWNERS: seq<DnsName> := [APEX, STAR_A, B_A]

  // ---- Records ----

  const APEX_WIRE: seq<Byte> := [0]
  const STAR_A_WIRE: seq<Byte> := [1, 42, 1, 97, 0]

  /** A link of the ring, as the zone publishes it: the types of the owner are the bits of one byte. */
  datatype RingLink = RingLink(owner: DnsName, next: DnsName, wire: seq<Byte>, bits: Byte)

  // The apex owns NS and SOA, the name `b.a` owns NS alone: it is a delegation.
  const FROM_APEX := RingLink(APEX, STAR_A, STAR_A_WIRE, 34)
  const FROM_B_A := RingLink(B_A, APEX, APEX_WIRE, 32)

  predicate Known(link: RingLink) {
    link == FROM_APEX || link == FROM_B_A
  }

  function Bitmap(link: RingLink): seq<Byte> {
    [0, 1, link.bits]
  }

  function NsecOf(link: RingLink): ResourceRecord {
    ResourceRecord(link.owner, NSEC, 1, 0, link.wire + Bitmap(link))
  }

  const KEY := KeyOf(APEX, 1)

  function SigFor(link: RingLink): ResourceRecord
    requires Known(link)
  {
    SigRecordOf(NsecOf(link), 1, APEX_WIRE)
  }

  /** Reads the two names that occur in the zone's record data. */
  function ParseKnown(data: seq<Byte>, at: nat): Option<(DnsName, nat)> {
    if at < |data| && data[at] == 0 then Some((APEX, at + 1))
    else if at + 5 <= |data| && data[at..at + 5] == STAR_A_WIRE then Some((STAR_A, at + 5))
    else None
  }

  const ENV := Env(
    ParseKnown,
    (record: ResourceRecord) => Err(UnsupportedCanonicalRdata),
    (kind: Byte, data: seq<Byte>) => [],
    (algorithm: Byte, key: seq<Byte>, signature: seq<Byte>) => None,
    (algorithm: Byte, key: seq<Byte>, data: seq<Byte>, signature: seq<Byte>) =>
      || key != [1]
      || data == SignedOf(NsecOf(FROM_APEX), 1, APEX_WIRE)
      || data == SignedOf(NsecOf(FROM_B_A), 1, APEX_WIRE),
    (name: DnsName, iterations: U16, salt: seq<Byte>) => [])

  // ---- Every link validates ----

  lemma EncodedNames()
    ensures EncodeName(APEX) == APEX_WIRE && EncodeName(STAR_A) == STAR_A_WIRE
  {
    assert STAR_A[1..] == A && A[1..] == APEX;
    LowerAllIdentity(STAR);
    LowerAllIdentity(LABEL_A);
    assert EncodeName(A) == [1, 97] + [0];
  }

  lemma BitmapValid(link: RingLink)
    ensures ValidBitmap(Bitmap(link))
  {
    assert Bitmap(link)[3..] == [];
  }

  lemma LinkParses(link: RingLink)
    requires Known(link)
    ensures ParseNsec(ENV, NsecOf(link).rdata) == Ok(NsecRecord(link.next, Bitmap(link)))
    ensures EncodeName(link.next) == link.wire && Plain(ENV, NsecOf(link))
  {
    EncodedNames();
    BitmapValid(link);
    var (data, n) := (NsecOf(link).rdata, |link.wire|);
    assert data[..n] == link.wire && data[n..] == Bitmap(link);
    assert link == FROM_APEX ==> data[0..0 + 5] == data[..n];
  }

  lemma SignerRead(link: RingLink)
    requires Known(link)
    ensures ReadsSigner(ENV, SigFor(link).rdata, APEX, APEX_WIRE)
  {
    EncodedNames();
    assert SigFor(link).rdata[18] == 0;
  }

  lemma LinkSecure(link: RingLink)
    requires Known(link)
    ensures ValidateSignature(ENV, APEX, [KEY], [NsecOf(link)], [SigFor(link)], 1) == Ok(Secure)
  {
    LinkParses(link);
    SignerRead(link);
    OneSecure(ENV, NsecOf(link), APEX, 1, APEX, APEX_WIRE);
  }

  // ---- The zone behind them ----

  ghost function WitnessWorld(): World {
    World((zone: DnsName) => zone == APEX,
          (zone: DnsName, rdata: seq<Byte>) => zone == APEX && rdata == KeyRdata(1),
          (zone: DnsName, content: Content) =>
            zone == APEX && (content == ContentFor(NsecOf(FROM_APEX)) || content == ContentFor(NsecOf(FROM_B_A))))
  }

  lemma LinkPublished(link: RingLink)
    requires Known(link)
    ensures SignedFor(ENV, WitnessWorld(), APEX, SignedOf(NsecOf(link), 1, APEX_WIRE))
  {
    LinkParses(link);
    SignerRead(link);
    assert WitnessWorld().published(APEX, ContentFor(NsecOf(link)));
    OnePublished(ENV, WitnessWorld(), APEX, NsecOf(link), 1, APEX, APEX_WIRE);
  }

  /** Nothing is assumed of keys other than the zone's: they verify anything. */
  lemma WitnessUnforgeable()
    ensures Unforgeable(ENV, WitnessWorld()) && AllGenuine(WitnessWorld(), APEX, [KEY])
    ensures forall key: seq<Byte>, data: seq<Byte> | key != [1] :: ENV.verifies(15, key, data, [])
  {
    KeyParses(1);
    LinkPublished(FROM_APEX);
    LinkPublished(FROM_B_A);
  }

  // ---- The order of the names ----

  lemma {:induction false} LexicographicAppend<T(!new)>(cmp: (T, T) -> Ordering, p: seq<T>, a: seq<T>, b: seq<T>)
    requires TotalOrder(cmp)
    ensures Lexicographic(cmp, p + a, p + b) == Lexicographic(cmp, a, b)
  {
    if p == [] {
      assert p + a == a && p + b == b;
    } else {
      LexicographicAppend(cmp, p[1..], a, b);
      assert (p + a)[1..] == p[1..] + a && (p + b)[1..] == p[1..] + b;
    }
  }

  /** Siblings are ordered as their labels. */
  lemma SiblingsOrdered(x: Label, y: Label, parent: DnsName)
    requires x[0] < y[0]
    ensures CompareNames([x] + parent, [y] + parent) == Less
  {
    LexicographicIsTotal(CompareBytes);
    var p: seq<seq<Byte>> := Reversed(parent);
    assert Reversed([x] + parent) == p + [x] && Reversed([y] + parent) == p + [y];
    LexicographicAppend<seq<Byte>>(CompareLabels(), p, [x], [y]);
    assert CompareLabels()(x, y) == Less;
  }

  lemma NamesOrdered()
    ensures TotalOrder(CompareNames) && Ring(CompareNames, OWNERS)
    ensures CoversName(APEX, STAR_A, A) && CoversName(APEX, STAR_A, [STAR] + APEX) && CoversName(B_A, APEX, Z_A)
    ensures CoversName(B_A, APEX, Z_B_A)
  {
    NamesTotallyOrdered();
    SiblingsOrdered(STAR, LABEL_A, APEX);
    SiblingsOrdered(STAR, LABEL_B, A);
    SiblingsOrdered(LABEL_B, LABEL_Z, A);
    assert [STAR] + APEX == [STAR] && [LABEL_A] + APEX == A;
    assert [STAR] + A == STAR_A && [LABEL_B] + A == B_A && [LABEL_Z] + A == Z_A;
    DescendantsFollow(APEX, A, A);
    DescendantsFollow(APEX, STAR_A, STAR_A);
    DescendantsFollow(APEX, B_A, B_A);
    DescendantsFollow(APEX, [STAR], [STAR]);
    DescendantsFollow(A, STAR_A, STAR_A);
    DescendantsFollow(B_A, Z_B_A, Z_B_A);
  }

  lemma WitnessRing()
    ensures HonestRing(ENV, APEX, [KEY], 1, OWNERS)
  {
    WitnessUnforgeable();
    WitnessPublishesRing();
    PublishedRingIsHonest(ENV, WitnessWorld(), APEX, [KEY], 1, OWNERS);
  }

  /** What the zone publishes is the content of one of the two links. */
  lemma PublishedLinkOf(content: Content) returns (link: RingLink)
    requires WitnessWorld().published(APEX, content)
    ensures Known(link) && content.owner == link.owner && forall rdata <- content.rdatas :: rdata == NsecOf(link).rdata
  {
    link := if content == ContentFor(NsecOf(FROM_APEX)) then FROM_APEX else FROM_B_A;
  }

  lemma LinkInRing(link: RingLink)
    requires Known(link)
    ensures IsLink(OWNERS, link.owner, NsecOf(link).rdata)
  {
    EncodedNames();
    assert OWNERS[0] == APEX && OWNERS[2] == B_A;
    assert NextOwner(OWNERS, 0) == STAR_A && NextOwner(OWNERS, 2) == APEX;
    var i: nat := if link == FROM_APEX then 0 else 2;
    assert i < |OWNERS| && OWNERS[i] == link.owner;
    assert NsecOf(link).rdata == EncodeName(NextOwner(OWNERS, i)) + Bitmap(link);
  }

  lemma WitnessPublishesRing()
    ensures PublishesRing(WitnessWorld(), APEX, OWNERS)
  {
    NamesOrdered();
    forall content: Content | WitnessWorld().published(APEX, content) && content.rtype == NSEC
      ensures forall rdata <- content.rdatas :: IsLink(OWNERS, content.owner, rdata)
    {
      var link := PublishedLinkOf(content);
      LinkInRing(link);
    }
  }

  lemma WitnessPublishesTypes()
    ensures PublishesTypes(WitnessWorld(), APEX, Types)
  {
    forall content: Content | WitnessWorld().published(APEX, content) && content.rtype == NSEC
      ensures forall rdata <- content.rdatas :: ListsOwnTypes(Types, content.owner, rdata)
    {
      var link := PublishedLinkOf(content);
      LinkListsTypes(link);
    }
  }

  /** The types of the owners: as the signed bitmaps list them, and an address at the wildcard. */
  function Types(name: DnsName, code: U16): bool {
    if name == APEX then Contains(Bitmap(FROM_APEX), code)
    else if name == B_A then Contains(Bitmap(FROM_B_A), code)
    else name == STAR_A && code == 1
  }

  lemma LinkListsTypes(link: RingLink)
    requires Known(link)
    ensures ListsOwnTypes(Types, link.owner, NsecOf(link).rdata)
  {
    BitmapValid(link);
    LinkParses(link);
    forall next: DnsName, bitmap: seq<Byte> | NsecOf(link).rdata == EncodeName(next) + bitmap
      ensures ListsTypes(Types, link.owner, bitmap)
    {
      NamePrefixCode(next, bitmap, link.next, Bitmap(link));
      forall code: U16 ensures Types(link.owner, code) <==> Lists(bitmap, code) {
        ContainsIffListed(bitmap, -1, code);
      }
    }
  }

  lemma WitnessTypes()
    ensures HonestTypes(ENV, APEX, [KEY], 1, Types)
  {
    WitnessUnforgeable();
    WitnessPublishesTypes();
    PublishedTypesAreHonest(ENV, WitnessWorld(), APEX, [KEY], 1, Types);
  }

  lemma CutsAre()
    ensures IsCut(Types, B_A) && !IsCut(Types, APEX) && !IsCut(Types, STAR_A)
    ensures NoOwnerBelowCuts(OWNERS, Types)
  {
    assert !Contains(Bitmap(FROM_APEX), DNAME) && Contains(Bitmap(FROM_APEX), SOA);
    assert !IsCut(Types, APEX) && !IsCut(Types, STAR_A);
  }

  // ---- Three name errors ----

  function NameErrorOf(query: DnsName, link: RingLink): NameErrorInput
    requires Known(link)
  {
    NameErrorInput(APEX, [KEY], query, APEX, [NsecOf(link)], [SigFor(link)],
                   [NsecOf(FROM_APEX)], [SigFor(FROM_APEX)], 1)
  }

  lemma RangeSecure(link: RingLink, query: DnsName)
    requires Known(link) && CoversName(link.owner, link.next, query)
    ensures ValidateRange(ENV, RangeInput(APEX, [KEY], [NsecOf(link)], [SigFor(link)], 1), query) == Ok(Secure)
  {
    LinkParses(link);
    LinkSecure(link);
    OwnerSets(link);
    var input := RangeInput(APEX, [KEY], [NsecOf(link)], [SigFor(link)], 1);
    assert Denies(ENV, input, query, NsecOf(link));
    assert NsecOf(link) in input.nsecs;
    RangeSecureIff(ENV, input, query);
  }

  lemma OwnerSets(link: RingLink)
    requires Known(link)
    ensures AtOwner([NsecOf(link)], NsecOf(link), NSEC) == [NsecOf(link)]
    ensures AtOwner([SigFor(link)], NsecOf(link), RRSIG) == [SigFor(link)]
  {
    var (records, sigs) := ([NsecOf(link)], [SigFor(link)]);
    assert records[1..] == [] && sigs[1..] == [];
  }

  lemma NameErrorSecure(query: DnsName, link: RingLink)
    requires Known(link) && query != APEX && CoversName(link.owner, link.next, query)
    ensures ValidateNameError(ENV, NameErrorOf(query, link)) == Ok(Secure)
  {
    RangeSecure(link, query);
    WildcardSecure();
    assert query[|query|..] == APEX;
  }

  lemma WildcardSecure()
    ensures WildcardChild(APEX) == Ok([STAR] + APEX)
    ensures ValidateRange(ENV, RangeInput(APEX, [KEY], [NsecOf(FROM_APEX)], [SigFor(FROM_APEX)], 1), [STAR] + APEX)
         == Ok(Secure)
  {
    NamesOrdered();
    RangeSecure(FROM_APEX, [STAR] + APEX);
    assert |EncodeName([STAR] + APEX)| <= 255;
  }

  /** The name `a` is denied although `*.a` and `b.a` own records. */
  lemma EmptyNonTerminalDenied()
    ensures HonestRing(ENV, APEX, [KEY], 1, OWNERS)
    ensures ValidateNameError(ENV, NameErrorOf(A, FROM_APEX)) == Ok(Secure)
    ensures STAR_A in OWNERS && IsStrictSubdomain(STAR_A, A)
  {
    WitnessRing();
    NamesOrdered();
    NameErrorSecure(A, FROM_APEX);
  }

  /** The name `z.a` is denied although the wildcard `*.a` answers for it. */
  lemma WildcardLeftUndenied()
    ensures HonestRing(ENV, APEX, [KEY], 1, OWNERS)
    ensures ValidateNameError(ENV, NameErrorOf(Z_A, FROM_B_A)) == Ok(Secure)
    ensures WildcardAnswers(OWNERS, Z_A, STAR_A)
  {
    WitnessRing();
    NamesOrdered();
    NameErrorSecure(Z_A, FROM_B_A);
    ClosestOfZ();
  }

  lemma ClosestOfZ()
    requires Ring(CompareNames, OWNERS) && CoversName(B_A, APEX, Z_A)
    ensures WildcardAnswers(OWNERS, Z_A, STAR_A)
  {
    assert Z_A[1..] == A && Z_A[..1] == [LABEL_Z] && B_A[..1] == [LABEL_B];
    assert CommonLabels(Z_A[..1], B_A[..1]) == 0 && CommonLabels(Z_A, B_A) == 1 && CommonLabels(Z_A, APEX) == 0;
    assert OWNERS[2] == B_A && NextOwner(OWNERS, 2) == APEX;
    ClosestIff(OWNERS, 2, Z_A, A);
    assert IsClosest(OWNERS, Z_A, A) && STAR_A == [STAR] + A && STAR_A in OWNERS;
  }

  /** The name `z.b.a` is denied although `b.a` is a delegation, below which names are the child zone's. */
  lemma DelegatedNameDenied()
    ensures HonestRing(ENV, APEX, [KEY], 1, OWNERS) && HonestTypes(ENV, APEX, [KEY], 1, Types)
    ensures NoOwnerBelowCuts(OWNERS, Types) && Delegated(OWNERS, Types, Z_B_A)
    ensures ValidateNameError(ENV, NameErrorOf(Z_B_A, FROM_B_A)) == Ok(Secure)
  {
    WitnessRing();
    WitnessTypes();
    CutsAre();
    NamesOrdered();
    NameErrorSecure(Z_B_A, FROM_B_A);
    assert B_A in OWNERS && IsStrictSubdomain(Z_B_A, B_A);
  }
}
