/** The canonical order and the signed bytes, spelled out byte by byte. */
module CanonicalForms {
  import opened Wrappers
  import opened Order
  import opened Dns
  import opened TypeBitmap
  import opened DnssecRecords
  import opened SignedData
  import opened SignedDataUnique

  // ---- Orders ----

  /** A shorter string comes before its extensions; otherwise the first byte that differs decides. */
  ghost predicate Precedes(a: seq<Byte>, b: seq<Byte>) {
    || (a <= b && |a| < |b|)
    || exists n: nat :: n < |a| && n < |b| && a[..n] == b[..n] && a[n] < b[n]
  }

  lemma {:induction false} LexicographicLessIff<T(!new)>(cmp: (T, T) -> Ordering, a: seq<T>, b: seq<T>)
    requires TotalOrder(cmp)
    ensures Lexicographic(cmp, a, b) == Less <==>
            || (a <= b && |a| < |b|)
            || exists n: nat :: n < |a| && n < |b| && a[..n] == b[..n] && cmp(a[n], b[n]) == Less
    decreases |a|
  {
    if a != [] && b != [] {
      var (s, t) := (a[1..], b[1..]);
      LexicographicLessIff(cmp, s, t);
      assert a == [a[0]] + s && b == [b[0]] + t;
      if cmp(a[0], b[0]) == Equal {
        assert a <= b <==> s <= t;
        if n: nat :| n < |s| && n < |t| && s[..n] == t[..n] && cmp(s[n], t[n]) == Less {
          assert a[..n + 1] == [a[0]] + s[..n] && b[..n + 1] == [b[0]] + t[..n] && cmp(a[n + 1], b[n + 1]) == Less;
        }
        if n: nat :| n < |a| && n < |b| && a[..n] == b[..n] && cmp(a[n], b[n]) == Less {
          assert n > 0;
          assert s[..n - 1] == a[..n][1..] && t[..n - 1] == b[..n][1..] && cmp(s[n - 1], t[n - 1]) == Less;
        }
      } else {
        assert a[..0] == b[..0];
        assert forall n: nat | 0 < n <= |a| && n <= |b| :: a[..n][0] == a[0] && b[..n][0] == b[0];
      }
    }
  }

  lemma RdataLessIff(a: seq<Byte>, b: seq<Byte>)
    ensures CompareRdata(a, b) == Less <==> Precedes(a, b)
  {
    LexicographicLessIff(CompareBytes, a, b);
    if n: nat :| n < |a| && n < |b| && a[..n] == b[..n] && CompareBytes(a[n], b[n]) == Less {
      assert a[n] < b[n];
    }
    if n: nat :| n < |a| && n < |b| && a[..n] == b[..n] && a[n] < b[n] {
      assert CompareBytes(a[n], b[n]) == Less;
    }
  }

  /** The last label but `n`. */
  function LabelFromTop(name: DnsName, n: nat): Label
    requires n < |name|
  {
    name[|name| - 1 - n]
  }

  /** A name comes before the names below it; otherwise the first label that differs decides, from the top. */
  ghost predicate NamePrecedes(a: DnsName, b: DnsName) {
    || IsStrictSubdomain(b, a)
    || exists n: nat :: n < |a| && n < |b| && SuffixOf(a, n) == SuffixOf(b, n)
                        && Precedes(LabelFromTop(a, n), LabelFromTop(b, n))
  }

  lemma ReversedPrefix(a: DnsName, n: nat)
    requires n <= |a|
    ensures Reversed(a)[..n] == Reversed(SuffixOf(a, n))
  {
  }

  lemma SamePrefixIff(a: DnsName, b: DnsName, n: nat)
    requires n <= |a| && n <= |b|
    ensures Reversed(a)[..n] == Reversed(b)[..n] <==> SuffixOf(a, n) == SuffixOf(b, n)
  {
    ReversedPrefix(a, n);
    ReversedPrefix(b, n);
    if Reversed(a)[..n] == Reversed(b)[..n] {
      ReversedInjective(SuffixOf(a, n), SuffixOf(b, n));
    }
  }

  ghost predicate DiffersAt(a: DnsName, b: DnsName, n: nat) {
    && n < |a| && n < |b| && Reversed(a)[..n] == Reversed(b)[..n]
    && CompareLabels()(Reversed(a)[n], Reversed(b)[n]) == Less
  }

  lemma DiffersIff(a: DnsName, b: DnsName, n: nat)
    requires n < |a| && n < |b|
    ensures DiffersAt(a, b, n) <==>
            SuffixOf(a, n) == SuffixOf(b, n) && Precedes(LabelFromTop(a, n), LabelFromTop(b, n))
  {
    SamePrefixIff(a, b, n);
    RdataLessIff(LabelFromTop(a, n), LabelFromTop(b, n));
  }

  lemma BelowIff(a: DnsName, b: DnsName)
    ensures (Reversed(a) <= Reversed(b) && |a| < |b|) <==> IsStrictSubdomain(b, a)
  {
    if |a| < |b| {
      SamePrefixIff(a, b, |a|);
      assert SuffixOf(a, |a|) == a && Reversed(a)[..|a|] == Reversed(a);
      assert Reversed(a) <= Reversed(b) <==> Reversed(a) == Reversed(b)[..|a|];
    }
  }

  /** The canonical order of names, on their labels and bytes. */
  lemma NamesLessIff(a: DnsName, b: DnsName)
    ensures CompareNames(a, b) == Less <==> NamePrecedes(a, b)
  {
    LabelwiseIff(a, b);
    BelowIff(a, b);
    if n: nat :| DiffersAt(a, b, n) {
      DiffersIff(a, b, n);
    }
    if n: nat :| n < |a| && n < |b| && SuffixOf(a, n) == SuffixOf(b, n)
                 && Precedes(LabelFromTop(a, n), LabelFromTop(b, n)) {
      DiffersIff(a, b, n);
    }
  }

  lemma LabelwiseIff(a: DnsName, b: DnsName)
    ensures CompareNames(a, b) == Less <==>
            (Reversed(a) <= Reversed(b) && |a| < |b|) || exists n: nat :: DiffersAt(a, b, n)
  {
    LexicographicIsTotal(CompareBytes);
    var (x, y) := (Reversed(a), Reversed(b));
    LexicographicLessIff<seq<Byte>>(CompareLabels(), x, y);
    if n: nat :| n < |x| && n < |y| && x[..n] == y[..n] && CompareLabels()(x[n], y[n]) == Less {
      assert DiffersAt(a, b, n);
    }
    if n: nat :| DiffersAt(a, b, n) {
      assert x[..n] == y[..n] && CompareLabels()(x[n], y[n]) == Less;
    }
  }

  /** The open interval from one element to another, in terms of what comes before what. */
  lemma BetweenIff<T(!new)>(cmp: (T, T) -> Ordering, owner: T, next: T, q: T)
    requires cmp(owner, next) == Equal <==> owner == next
    requires cmp(owner, next) == Greater <==> cmp(next, owner) == Less
    ensures Between(cmp, owner, next, q) <==>
            && q != owner
            && (|| (cmp(owner, next) == Less && cmp(owner, q) == Less && cmp(q, next) == Less)
                || (cmp(next, owner) == Less && (cmp(owner, q) == Less || cmp(q, next) == Less))
                || owner == next)
  {
  }

  // ---- Record data ----

  /** The types whose data is signed as it stands. */
  predicate Opaque(rtype: U16) {
    rtype !in {2, 5, 6, 33, 46, 47, 50, 64, 65}
  }

  /** NS and CNAME data is one name; SRV data is six bytes and a name; NSEC data is a name and a type bitmap. */
  lemma CanonicalNameForms(env: Env, record: ResourceRecord, rdata: seq<Byte>)
    ensures record.rtype in {2, 5} ==>
            (CanonicalRdata(env, record) == Ok(rdata) <==>
             exists name :: env.parseName(record.rdata, 0) == Some((name, |record.rdata|)) && rdata == EncodeName(name))
    ensures record.rtype == 33 ==>
            (CanonicalRdata(env, record) == Ok(rdata) <==>
             && |record.rdata| >= 6
             && exists name :: env.parseName(record.rdata, 6) == Some((name, |record.rdata|))
                               && rdata == record.rdata[..6] + EncodeName(name))
    ensures record.rtype == 47 ==>
            (CanonicalRdata(env, record) == Ok(rdata) <==>
             exists name, end: nat ::
               && env.parseName(record.rdata, 0) == Some((name, end)) && end < |record.rdata|
               && ValidBitmap(record.rdata[end..]) && rdata == EncodeName(name) + record.rdata[end..])
    ensures CanonicalRdata(env, record).Err? && record.rtype in {2, 5, 33} ==>
            CanonicalRdata(env, record) == Err(InvalidRrset)
    ensures CanonicalRdata(env, record).Err? && record.rtype == 47 ==> CanonicalRdata(env, record) == Err(InvalidNsec)
  {
  }

  /** SOA data is two names and twenty bytes. */
  lemma CanonicalSoaForm(env: Env, record: ResourceRecord, rdata: seq<Byte>)
    requires record.rtype == 6
    ensures CanonicalRdata(env, record) == Ok(rdata) <==>
            exists mname, middle: nat, rname, end: nat ::
              && env.parseName(record.rdata, 0) == Some((mname, middle))
              && env.parseName(record.rdata, middle) == Some((rname, end))
              && |record.rdata| == end + 20
              && rdata == EncodeName(mname) + EncodeName(rname) + record.rdata[end..]
    ensures CanonicalRdata(env, record).Err? ==> CanonicalRdata(env, record) == Err(InvalidRrset)
  {
    if CanonicalRdata(env, record) == Ok(rdata) {
      var first := env.parseName(record.rdata, 0).value;
      var second := env.parseName(record.rdata, first.1).value;
      assert env.parseName(record.rdata, 0) == Some((first.0, first.1));
      assert env.parseName(record.rdata, first.1) == Some((second.0, second.1));
    }
  }

  /** RRSIG data is never signed, NSEC3 data must parse, and other data is signed as it stands. */
  lemma CanonicalOtherForms(env: Env, record: ResourceRecord)
    ensures record.rtype == 46 ==> CanonicalRdata(env, record) == Err(UnsupportedCanonicalRdata)
    ensures record.rtype == 50 ==>
            CanonicalRdata(env, record) == if ParseNsec3(record.rdata).Ok? then Ok(record.rdata) else Err(InvalidNsec3)
    ensures record.rtype in {64, 65} ==> CanonicalRdata(env, record) == env.canonicalSvcb(record)
    ensures Opaque(record.rtype) ==> CanonicalRdata(env, record) == Ok(record.rdata)
  {
  }

  // ---- The signed bytes ----

  /** The owner that is signed: the name itself, or below a wildcard the asterisk over the labels that are counted. */
  ghost predicate SignedOwner(name: DnsName, labels: nat, owner: DnsName) {
    || (labels == |name| && owner == name)
    || (labels < |name| && owner == [[42]] + SuffixOf(name, labels))
  }

  /** One record: owner, type, class, original TTL, length and data. */
  function RecordBytes(owner: DnsName, rtype: U16, rclass: U16, ttl: U32, rdata: ShortBytes): seq<Byte> {
    EncodeName(owner)
    + [rtype / 256, rtype % 256, rclass / 256, rclass % 256,
       ttl / 0x100_0000, ttl / 0x1_0000 % 256, ttl / 256 % 256, ttl % 256,
       |rdata| / 256, |rdata| % 256]
    + rdata
  }

  function RecordsBytes(owner: DnsName, rtype: U16, rclass: U16, ttl: U32, rdatas: seq<ShortBytes>): seq<Byte> {
    if rdatas == [] then []
    else RecordBytes(owner, rtype, rclass, ttl, rdatas[0]) + RecordsBytes(owner, rtype, rclass, ttl, rdatas[1..])
  }

  lemma Be32Bytes(ttl: U32)
    ensures Be32(ttl) == [ttl / 0x100_0000, ttl / 0x1_0000 % 256, ttl / 256 % 256, ttl % 256]
  {
    var (high, low) := (ttl / 0x1_0000, ttl % 0x1_0000);
    var (a, b, c, d) := (high / 256, high % 256, low / 256, low % 256);
    assert high == 256 * a + b && low == 256 * c + d;
    FourBytes(ttl, a, b, c, d);
  }

  lemma FourBytes(x: nat, a: nat, b: nat, c: nat, d: nat)
    requires a < 256 && b < 256 && c < 256 && d < 256
    requires x == 0x1_0000 * (256 * a + b) + (256 * c + d)
    ensures x / 0x100_0000 == a && x / 0x1_0000 % 256 == b && x / 256 % 256 == c && x % 256 == d
  {
    assert x / 0x1_0000 == 256 * a + b;
    assert x / 256 == 256 * (256 * a + b) + c;
  }

  lemma WireBytes(owner: DnsName, rtype: U16, rclass: U16, ttl: U32, rdata: ShortBytes)
    ensures Wire(WireHead(owner, rtype, rclass, ttl), rdata) == RecordBytes(owner, rtype, rclass, ttl, rdata)
  {
    Be32Bytes(ttl);
    assert Be16(rtype) + Be16(rclass) + Be32(ttl) + Be16(|rdata|)
        == [rtype / 256, rtype % 256, rclass / 256, rclass % 256,
            ttl / 0x100_0000, ttl / 0x1_0000 % 256, ttl / 256 % 256, ttl % 256, |rdata| / 256, |rdata| % 256];
    assert Wire(WireHead(owner, rtype, rclass, ttl), rdata)
        == EncodeName(owner) + (Be16(rtype) + Be16(rclass) + Be32(ttl) + Be16(|rdata|)) + rdata;
  }

  lemma {:induction false} WiresBytes(owner: DnsName, rtype: U16, rclass: U16, ttl: U32, rdatas: seq<ShortBytes>)
    ensures Wires(WireHead(owner, rtype, rclass, ttl), rdatas) == RecordsBytes(owner, rtype, rclass, ttl, rdatas)
    decreases |rdatas|
  {
    if rdatas != [] {
      WireBytes(owner, rtype, rclass, ttl, rdatas[0]);
      WiresBytes(owner, rtype, rclass, ttl, rdatas[1..]);
    }
  }

  lemma OwnerIff(name: DnsName, labels: nat, owner: DnsName)
    ensures CanonicalOwner(name, labels) == Ok(owner) <==> SignedOwner(name, labels, owner)
  {
  }

  /** The records agree in type, class and signed owner, and `rdatas` is their canonical data in their order. */
  ghost predicate SameRrset(env: Env, rrset: seq<ResourceRecord>, labels: nat, owner: DnsName,
                            rdatas: seq<ShortBytes>)
  {
    && rrset != [] && |rdatas| == |rrset|
    && forall i: nat | i < |rrset| :: RecordMeets(env, rrset, i, labels, owner, rdatas[i])
  }

  ghost predicate RecordMeets(env: Env, rrset: seq<ResourceRecord>, i: nat, labels: nat, owner: DnsName,
                              rdata: seq<Byte>)
    requires i < |rrset|
  {
    && rrset[i].rtype == rrset[0].rtype && rrset[i].rclass == rrset[0].rclass
    && SignedOwner(rrset[i].name, labels, owner)
    && CanonicalRdata(env, rrset[i]) == Ok(rdata)
  }

  lemma CanonicalRrsetIff(env: Env, rrset: seq<ResourceRecord>, rrsig: RrsigRecord, owner: DnsName,
                          rdatas: seq<ShortBytes>)
    ensures (exists rtype, rclass :: CanonicalRrset(env, rrset, rrsig) == Ok(Canonical(owner, rtype, rclass, rdatas)))
            <==> SameRrset(env, rrset, rrsig.labels, owner, rdatas) && rrset[0].rtype == rrsig.typeCovered
  {
    if rrset != [] {
      OwnerIff(rrset[0].name, rrsig.labels, owner);
      CanonicalRecordsIff(env, rrset, rrsig, owner, rdatas);
      if SameRrset(env, rrset, rrsig.labels, owner, rdatas) && rrset[0].rtype == rrsig.typeCovered {
        assert CanonicalRrset(env, rrset, rrsig) == Ok(Canonical(owner, rrset[0].rtype, rrset[0].rclass, rdatas));
      }
    }
  }

  lemma CanonicalRecordsIff(env: Env, rrset: seq<ResourceRecord>, rrsig: RrsigRecord, owner: DnsName,
                            rdatas: seq<ShortBytes>)
    requires rrset != []
    ensures CanonicalRecords(env, rrset[0], owner, rrsig, rrset) == Ok(rdatas) <==>
            SameRrset(env, rrset, rrsig.labels, owner, rdatas)
  {
    RecordsCount(env, rrset[0], owner, rrsig, rrset);
    forall i: nat | i < |rrset| && i < |rdatas|
      ensures CanonicalRecord(env, rrset[0], owner, rrsig, rrset[i]) == Ok(rdatas[i]) <==>
              RecordMeets(env, rrset, i, rrsig.labels, owner, rdatas[i])
    {
      OwnerIff(rrset[i].name, rrsig.labels, owner);
    }
    if SameRrset(env, rrset, rrsig.labels, owner, rdatas) {
      assert forall i: nat | i < |rrset| :: CanonicalRecord(env, rrset[0], owner, rrsig, rrset[i]) == Ok(rdatas[i]);
      assert forall record <- rrset :: CanonicalRecord(env, rrset[0], owner, rrsig, record).Ok?;
      assert CanonicalRecords(env, rrset[0], owner, rrsig, rrset).value == rdatas;
    }
  }

  /** The canonical data in ascending order, no two alike. */
  ghost predicate AscendingForm(rdatas: seq<ShortBytes>, sorted: seq<ShortBytes>) {
    && multiset(sorted) == multiset(rdatas)
    && forall i: nat, j: nat | i < j < |sorted| :: Precedes(sorted[i], sorted[j])
  }

  lemma AscendingFormIff(rdatas: seq<ShortBytes>, sorted: seq<ShortBytes>)
    ensures AscendingForm(rdatas, sorted) <==> sorted == Sorted(rdatas) && NoNeighboursEqual(sorted)
  {
    SortedElements(rdatas);
    SortedSorts(rdatas);
    forall i: nat, j: nat | i < j < |sorted|
      ensures CompareRdata(sorted[i], sorted[j]) == Less <==> Precedes(sorted[i], sorted[j])
    {
      RdataLessIff(sorted[i], sorted[j]);
    }
    if AscendingForm(rdatas, sorted) {
      OnlyAscending(rdatas, sorted);
    }
  }

  lemma OnlyAscending(rdatas: seq<ShortBytes>, sorted: seq<ShortBytes>)
    requires TotalOrder<seq<Byte>>(CompareRdata) && Ascending(sorted) && multiset(sorted) == multiset(rdatas)
    ensures sorted == Sorted(rdatas) && NoNeighboursEqual(sorted)
  {
    var t := Sorted(rdatas);
    SortedSorts(rdatas);
    forall i | 0 <= i < |t| - 1 ensures t[i] != t[i + 1] {
      OnceOnly(sorted, t[i]);
      if t[i] == t[i + 1] {
        NeighboursCount(t, i);
      }
    }
    SortedElements(rdatas);
    SameElements(sorted, t);
    AscendingUnique(sorted, t);
  }

  /** Which error there is instead of signed bytes: the validity period first, then the shape of the set. */
  lemma SignedBytesErrors(env: Env, rrset: seq<ResourceRecord>, rrsig: RrsigRecord, now: nat)
    ensures now < rrsig.inception || rrsig.expiration < now ==>
            SignedBytes(env, rrset, rrsig, now) == Err(SignatureOutsideValidity)
    ensures rrsig.inception <= now <= rrsig.expiration && (rrset == [] || rrset[0].rtype != rrsig.typeCovered
                                                           || rrsig.labels > |rrset[0].name|) ==>
            SignedBytes(env, rrset, rrsig, now) == Err(InvalidRrset)
    ensures rrsig.inception <= now <= rrsig.expiration && CanonicalRrset(env, rrset, rrsig).Ok?
            && SignedBytes(env, rrset, rrsig, now).Err? ==>
            SignedBytes(env, rrset, rrsig, now) == Err(InvalidRrset)
  {
  }

  /** A record of another type, class or signed owner makes the set an error, and so does one without canonical data. */
  lemma RecordErrors(env: Env, rrset: seq<ResourceRecord>, rrsig: RrsigRecord, owner: DnsName, record: ResourceRecord)
    requires rrset != []
    ensures record.rtype != rrset[0].rtype || record.rclass != rrset[0].rclass
            || !SignedOwner(record.name, rrsig.labels, owner) ==>
            CanonicalRecord(env, rrset[0], owner, rrsig, record) == Err(InvalidRrset)
    ensures record.rtype == rrset[0].rtype && record.rclass == rrset[0].rclass
            && SignedOwner(record.name, rrsig.labels, owner) && CanonicalRdata(env, record).Err? ==>
            CanonicalRecord(env, rrset[0], owner, rrsig, record) == Err(CanonicalRdata(env, record).error)
  {
    OwnerIff(record.name, rrsig.labels, owner);
  }

  ghost predicate SignedForm(env: Env, rrset: seq<ResourceRecord>, rrsig: RrsigRecord, owner: DnsName,
                             rdatas: seq<ShortBytes>, sorted: seq<ShortBytes>, bytes: seq<Byte>)
  {
    && SameRrset(env, rrset, rrsig.labels, owner, rdatas) && AscendingForm(rdatas, sorted)
    && bytes == rrsig.signedRdata
                + RecordsBytes(owner, rrset[0].rtype, rrset[0].rclass, rrsig.originalTtl, sorted)
  }

  /**
   * What is signed: within the validity period, the fields of the RRSIG without its signature, followed by the records
   * of one RRset under one owner, in the ascending order of their canonical data, which is nowhere repeated.
   */
  lemma SignedBytesIff(env: Env, rrset: seq<ResourceRecord>, rrsig: RrsigRecord, now: nat, bytes: seq<Byte>)
    ensures SignedBytes(env, rrset, rrsig, now) == Ok(bytes) <==>
            && rrsig.inception <= now <= rrsig.expiration
            && rrset != [] && rrset[0].rtype == rrsig.typeCovered
            && exists owner, rdatas, sorted :: SignedForm(env, rrset, rrsig, owner, rdatas, sorted, bytes)
  {
    if SignedBytes(env, rrset, rrsig, now) == Ok(bytes) {
      var c := CanonicalRrset(env, rrset, rrsig).value;
      CanonicalRrsetIff(env, rrset, rrsig, c.owner, c.rdatas);
      AscendingFormIff(c.rdatas, Sorted(c.rdatas));
      WiresBytes(c.owner, c.rtype, c.rclass, rrsig.originalTtl, Sorted(c.rdatas));
      assert SignedForm(env, rrset, rrsig, c.owner, c.rdatas, Sorted(c.rdatas), bytes);
    }
    if rrsig.inception <= now <= rrsig.expiration && rrset != [] && rrset[0].rtype == rrsig.typeCovered {
      if owner, rdatas, sorted :| SignedForm(env, rrset, rrsig, owner, rdatas, sorted, bytes) {
        CanonicalRrsetIff(env, rrset, rrsig, owner, rdatas);
        AscendingFormIff(rdatas, sorted);
        WiresBytes(owner, rrset[0].rtype, rrset[0].rclass, rrsig.originalTtl, sorted);
      }
    }
  }
}
