/** Signed bytes and canonical content determine each other, whatever the order of the records. */
module SignedDataUnique {
  import opened Wrappers
  import opened Order
  import opened Dns
  import opened DnssecRecords
  import opened SignedData

  // ---- Sorting ----

  ghost predicate Ascending(s: seq<ShortBytes>) {
    forall i, j | 0 <= i < j < |s| :: CompareRdata(s[i], s[j]) == Less
  }

  ghost predicate WeaklyAscending(s: seq<ShortBytes>) {
    forall i, j | 0 <= i < j < |s| :: CompareRdata(s[i], s[j]) != Greater
  }

  lemma RdataTotallyOrdered()
    ensures TotalOrder<seq<Byte>>(CompareRdata)
  {
    LexicographicIsTotal(CompareBytes);
    var lex := LexicographicOrder(CompareBytes);
    assert forall a, b :: CompareRdata(a, b) == lex(a, b);
  }

  lemma {:induction false} InsertSortedAdds(x: ShortBytes, s: seq<ShortBytes>)
    ensures multiset(InsertSorted(x, s)) == multiset(s) + multiset{x}
  {
    if s != [] {
      InsertSortedAdds(x, s[1..]);
      assert s == [s[0]] + s[1..];
    }
  }

  lemma {:induction false} InsertSortedElements(x: ShortBytes, s: seq<ShortBytes>)
    ensures forall y <- InsertSorted(x, s) :: y == x || y in s
  {
    if s != [] {
      InsertSortedElements(x, s[1..]);
    }
  }

  lemma AscendingCons(x: ShortBytes, s: seq<ShortBytes>)
    requires WeaklyAscending(s) && forall y <- s :: CompareRdata(x, y) != Greater
    ensures WeaklyAscending([x] + s)
  {
  }

  lemma {:induction false} InsertSortedKeeps(x: ShortBytes, s: seq<ShortBytes>)
    requires WeaklyAscending(s) && TotalOrder<seq<Byte>>(CompareRdata)
    ensures WeaklyAscending(InsertSorted(x, s))
  {
    if s == [] || CompareRdata(x, s[0]) != Greater {
      assert forall i | 0 <= i < |s| :: CompareRdata(x, s[i]) != Greater;
      AscendingCons(x, s);
    } else {
      InsertSortedKeeps(x, s[1..]);
      InsertSortedElements(x, s[1..]);
      AscendingCons(s[0], InsertSorted(x, s[1..]));
    }
  }

  lemma {:induction false} SortedSorts(s: seq<ShortBytes>)
    requires TotalOrder<seq<Byte>>(CompareRdata)
    ensures WeaklyAscending(Sorted(s)) && multiset(Sorted(s)) == multiset(s)
  {
    if s != [] {
      SortedSorts(s[1..]);
      InsertSortedKeeps(s[0], Sorted(s[1..]));
      InsertSortedAdds(s[0], Sorted(s[1..]));
      assert s == [s[0]] + s[1..];
    }
  }

  lemma NeighboursSuffice(s: seq<ShortBytes>)
    requires TotalOrder<seq<Byte>>(CompareRdata) && WeaklyAscending(s) && NoNeighboursEqual(s)
    ensures Ascending(s)
  {
    forall i, j | 0 <= i < j < |s| ensures CompareRdata(s[i], s[j]) == Less {
      assert CompareRdata(s[i], s[i + 1]) == Less;
      if i + 1 < j {
        assert CompareRdata(s[i + 1], s[j]) != Greater;
      }
    }
  }

  lemma {:induction false} AscendingUnique(a: seq<ShortBytes>, b: seq<ShortBytes>)
    requires TotalOrder<seq<Byte>>(CompareRdata) && Ascending(a) && Ascending(b)
    requires forall x :: x in a <==> x in b
    ensures a == b
  {
    assert a != [] ==> a[0] in b;
    assert b != [] ==> b[0] in a;
    if a != [] {
      assert a[0] == b[0];
      assert a == [a[0]] + a[1..] && b == [b[0]] + b[1..];
      forall x ensures x in a[1..] <==> x in b[1..] {
        assert x in a[1..] ==> x in a && CompareRdata(a[0], x) == Less;
        assert x in b[1..] ==> x in b && CompareRdata(b[0], x) == Less;
      }
      AscendingUnique(a[1..], b[1..]);
    }
  }

  // ---- Wires ----

  lemma LengthPrefixCode(rdata: ShortBytes, x: seq<Byte>, rdata': ShortBytes, x': seq<Byte>)
    requires Be16(|rdata|) + (rdata + x) == Be16(|rdata'|) + (rdata' + x')
    ensures rdata == rdata' && x == x'
  {
    var (s, s') := (Be16(|rdata|) + (rdata + x), Be16(|rdata'|) + (rdata' + x'));
    assert s[0] == |rdata| / 256 && s[1] == |rdata| % 256;
    assert s'[0] == |rdata'| / 256 && s'[1] == |rdata'| % 256;
    assert |rdata| == |rdata'|;
    assert rdata == s[2..2 + |rdata|] && x == s[2 + |rdata|..];
    assert rdata' == s'[2..2 + |rdata|] && x' == s'[2 + |rdata|..];
  }

  lemma WireParts(name: seq<Byte>, head: seq<Byte>, rdata: ShortBytes, x: seq<Byte>)
    ensures Wire(name + head, rdata) + x == name + (head + (Be16(|rdata|) + (rdata + x)))
  {
  }

  lemma WirePrefixCode(owner: DnsName, head: seq<Byte>, rdata: ShortBytes, x: seq<Byte>,
                       owner': DnsName, head': seq<Byte>, rdata': ShortBytes, x': seq<Byte>)
    requires |head| == |head'| == 8
    requires Wire(EncodeName(owner) + head, rdata) + x == Wire(EncodeName(owner') + head', rdata') + x'
    ensures owner == owner' && head == head' && rdata == rdata' && x == x'
  {
    var (body, body') := (Be16(|rdata|) + (rdata + x), Be16(|rdata'|) + (rdata' + x'));
    WireParts(EncodeName(owner), head, rdata, x);
    WireParts(EncodeName(owner'), head', rdata', x');
    NamePrefixCode(owner, head + body, owner', head' + body');
    assert head == (head + body)[..8] && body == (head + body)[8..];
    assert head' == (head' + body')[..8] && body' == (head' + body')[8..];
    LengthPrefixCode(rdata, x, rdata', x');
  }

  lemma {:induction false} WiresInjective(owner: DnsName, head: seq<Byte>, rdatas: seq<ShortBytes>,
                                          owner': DnsName, head': seq<Byte>, rdatas': seq<ShortBytes>)
    requires |head| == |head'| == 8
    requires Wires(EncodeName(owner) + head, rdatas) == Wires(EncodeName(owner') + head', rdatas')
    ensures rdatas == rdatas' && (rdatas != [] ==> owner == owner' && head == head')
    decreases |rdatas|
  {
    if rdatas != [] && rdatas' != [] {
      var rest := Wires(EncodeName(owner) + head, rdatas[1..]);
      var rest' := Wires(EncodeName(owner') + head', rdatas'[1..]);
      WirePrefixCode(owner, head, rdatas[0], rest, owner', head', rdatas'[0], rest');
      WiresInjective(owner, head, rdatas[1..], owner', head', rdatas'[1..]);
      assert rdatas == [rdatas[0]] + rdatas[1..] && rdatas' == [rdatas'[0]] + rdatas'[1..];
    }
  }

  lemma HeadInjective(rtype: U16, rclass: U16, ttl: U32, rtype': U16, rclass': U16, ttl': U32)
    requires Be16(rtype) + Be16(rclass) + Be32(ttl) == Be16(rtype') + Be16(rclass') + Be32(ttl')
    ensures rtype == rtype' && rclass == rclass'
  {
    var s := Be16(rtype) + Be16(rclass) + Be32(ttl);
    var s' := Be16(rtype') + Be16(rclass') + Be32(ttl');
    assert s[0] == rtype / 256 && s[1] == rtype % 256 && s[2] == rclass / 256 && s[3] == rclass % 256;
    assert s'[0] == rtype' / 256 && s'[1] == rtype' % 256 && s'[2] == rclass' / 256 && s'[3] == rclass' % 256;
  }

  // ---- Content ----

  /** Owner, type, class and the set of canonical RDATA: the RRset as DNS understands it. */
  datatype Content = Content(owner: DnsName, rtype: U16, rclass: U16, rdatas: iset<seq<Byte>>)

  ghost function ContentOf(c: Canonical): Content {
    Content(c.owner, c.rtype, c.rclass, iset x: seq<Byte> | x in c.rdatas)
  }

  /** The signed form of an RRSIG is uniquely decodable, whatever follows it. */
  lemma SignedRdataPrefix(a: RrsigRecord, x: seq<Byte>, b: RrsigRecord, y: seq<Byte>)
    requires a.WellFormed() && b.WellFormed() && a.signedRdata + x == b.signedRdata + y
    ensures a.(signature := b.signature) == b && x == y
  {
    FixedPrefix(a.signedRdata, x, b.signedRdata, y, 18);
    NamePrefixCode(a.signerName, x, b.signerName, y);
    SignedFieldsEqual(a, b);
  }

  lemma FixedPrefix(p: seq<Byte>, x: seq<Byte>, q: seq<Byte>, y: seq<Byte>, n: nat)
    requires p + x == q + y && n <= |p| && n <= |q|
    ensures p[n..] + x == q[n..] + y && (p[n..] == q[n..] ==> p == q)
  {
    assert p[..n] == (p + x)[..n] == (q + y)[..n] == q[..n];
    assert p[n..] + x == (p + x)[n..] == (q + y)[n..] == q[n..] + y;
    assert p == p[..n] + p[n..] && q == q[..n] + q[n..];
  }

  /** Equal signed forms have equal fields, all but the signature. */
  lemma SignedFieldsEqual(a: RrsigRecord, b: RrsigRecord)
    requires a.WellFormed() && b.WellFormed() && a.signedRdata == b.signedRdata
    ensures a.(signature := b.signature) == b
  {
    assert EncodeName(a.signerName) + [] == EncodeName(b.signerName) + [];
    NamePrefixCode(a.signerName, [], b.signerName, []);
  }

  lemma {:induction false} RecordsCount(env: Env, first: ResourceRecord, owner: DnsName, rrsig: RrsigRecord,
                                        records: seq<ResourceRecord>)
    ensures var r := CanonicalRecords(env, first, owner, rrsig, records);
            && (r.Ok? <==> forall record <- records :: CanonicalRecord(env, first, owner, rrsig, record).Ok?)
            && (r.Ok? ==>
                && |r.value| == |records|
                && forall i | 0 <= i < |records| ::
                     Ok(r.value[i]) == CanonicalRecord(env, first, owner, rrsig, records[i]))
  {
    if records != [] {
      RecordsCount(env, first, owner, rrsig, records[1..]);
      assert records == [records[0]] + records[1..];
      assert forall record :: record in records <==> record == records[0] || record in records[1..];
    }
  }

  lemma SortedElements(s: seq<ShortBytes>)
    ensures TotalOrder<seq<Byte>>(CompareRdata)
    ensures forall x :: x in s <==> x in Sorted(s)
    ensures |Sorted(s)| == |s|
    ensures NoNeighboursEqual(Sorted(s)) ==> Ascending(Sorted(s))
  {
    RdataTotallyOrdered();
    SortedSorts(s);
    assert forall x :: x in s <==> x in multiset(s);
    assert |multiset(Sorted(s))| == |multiset(s)|;
    if NoNeighboursEqual(Sorted(s)) {
      NeighboursSuffice(Sorted(s));
    }
  }

  /** Two signed byte strings are equal exactly when the signed RRSIG fields and the contents are. */
  lemma SignedBytesIffContent(env: Env, rrset: seq<ResourceRecord>, rrsig: RrsigRecord, now: nat,
                              rrset': seq<ResourceRecord>, rrsig': RrsigRecord, now': nat)
    requires rrsig.WellFormed() && rrsig'.WellFormed()
    requires SignedBytes(env, rrset, rrsig, now).Ok? && SignedBytes(env, rrset', rrsig', now').Ok?
    ensures SignedBytes(env, rrset, rrsig, now) == SignedBytes(env, rrset', rrsig', now') <==>
            && rrsig.signedRdata == rrsig'.signedRdata
            && ContentOf(CanonicalRrset(env, rrset, rrsig).value)
               == ContentOf(CanonicalRrset(env, rrset', rrsig').value)
  {
    var (c, c') := (CanonicalRrset(env, rrset, rrsig).value, CanonicalRrset(env, rrset', rrsig').value);
    var (s, s') := (Sorted(c.rdatas), Sorted(c'.rdatas));
    SortedElements(c.rdatas);
    SortedElements(c'.rdatas);
    RecordsCount(env, rrset[0], c.owner, rrsig, rrset);
    var head := Be16(c.rtype) + Be16(c.rclass) + Be32(rrsig.originalTtl);
    var head' := Be16(c'.rtype) + Be16(c'.rclass) + Be32(rrsig'.originalTtl);
    if SignedBytes(env, rrset, rrsig, now) == SignedBytes(env, rrset', rrsig', now') {
      var (w, w') := (Wires(EncodeName(c.owner) + head, s), Wires(EncodeName(c'.owner) + head', s'));
      SignedRdataPrefix(rrsig, w, rrsig', w');
      WiresInjective(c.owner, head, s, c'.owner, head', s');
      HeadInjective(c.rtype, c.rclass, rrsig.originalTtl, c'.rtype, c'.rclass, rrsig'.originalTtl);
    }
    if rrsig.signedRdata == rrsig'.signedRdata && ContentOf(c) == ContentOf(c') {
      SignedRdataPrefix(rrsig, [], rrsig', []);
      forall x ensures x in s <==> x in s' {
        assert x in ContentOf(c).rdatas <==> x in ContentOf(c').rdatas;
      }
      AscendingUnique(s, s');
    }
  }

  /** Reordering the records changes neither whether there are signed bytes nor which. */
  lemma SignedBytesOrderFree(env: Env, rrset: seq<ResourceRecord>, rrset': seq<ResourceRecord>, rrsig: RrsigRecord,
                             now: nat)
    requires multiset(rrset) == multiset(rrset') && rrsig.WellFormed()
    ensures SignedBytes(env, rrset, rrsig, now).Ok? <==> SignedBytes(env, rrset', rrsig, now).Ok?
    ensures SignedBytes(env, rrset, rrsig, now).Ok? ==>
              SignedBytes(env, rrset, rrsig, now) == SignedBytes(env, rrset', rrsig, now)
  {
    if SignedBytes(env, rrset, rrsig, now).Ok? {
      Reordered(env, rrset, rrset', rrsig, now);
    } else if SignedBytes(env, rrset', rrsig, now).Ok? {
      Reordered(env, rrset', rrset, rrsig, now);
    }
  }

  lemma Reordered(env: Env, rrset: seq<ResourceRecord>, rrset': seq<ResourceRecord>, rrsig: RrsigRecord, now: nat)
    requires multiset(rrset) == multiset(rrset') && rrsig.WellFormed()
    requires SignedBytes(env, rrset, rrsig, now).Ok?
    ensures SignedBytes(env, rrset', rrsig, now) == SignedBytes(env, rrset, rrsig, now)
  {
    CanonicalReordered(env, rrset, rrset', rrsig);
    var (c, c') := (CanonicalRrset(env, rrset, rrsig).value, CanonicalRrset(env, rrset', rrsig).value);
    SortedDistinct(c.rdatas, c'.rdatas);
    SameElements(c.rdatas, c'.rdatas);
    SignedBytesIffContent(env, rrset, rrsig, now, rrset', rrsig, now);
  }

  lemma CanonicalReordered(env: Env, rrset: seq<ResourceRecord>, rrset': seq<ResourceRecord>, rrsig: RrsigRecord)
    requires multiset(rrset) == multiset(rrset') && CanonicalRrset(env, rrset, rrsig).Ok?
    ensures CanonicalRrset(env, rrset', rrsig).Ok?
    ensures var (c, c') := (CanonicalRrset(env, rrset, rrsig).value, CanonicalRrset(env, rrset', rrsig).value);
            c'.owner == c.owner && c'.rtype == c.rtype && c'.rclass == c.rclass
            && multiset(c'.rdatas) == multiset(c.rdatas)
  {
    var owner := CanonicalRrset(env, rrset, rrsig).value.owner;
    SameElements(rrset, rrset');
    assert rrset[0] in rrset && rrset' != [] && rrset'[0] in rrset;
    RecordsCount(env, rrset[0], owner, rrsig, rrset);
    RecordsCount(env, rrset[0], owner, rrsig, rrset');
    assert CanonicalRecord(env, rrset[0], owner, rrsig, rrset'[0]).Ok?;
    RecordsFirstFree(env, rrset[0], rrset'[0], owner, rrsig, rrset');
    RdatasReordered(env, rrset[0], owner, rrsig, rrset, rrset');
  }

  /** Any record of a uniform RRset can serve as its reference record. */
  lemma {:induction false} RecordsFirstFree(env: Env, first: ResourceRecord, first': ResourceRecord, owner: DnsName,
                                            rrsig: RrsigRecord, records: seq<ResourceRecord>)
    requires first.rtype == first'.rtype && first.rclass == first'.rclass
    ensures CanonicalRecords(env, first, owner, rrsig, records) == CanonicalRecords(env, first', owner, rrsig, records)
  {
    if records != [] {
      RecordsFirstFree(env, first, first', owner, rrsig, records[1..]);
    }
  }

  lemma Cut<T>(s: seq<T>, x: T) returns (a: seq<T>, b: seq<T>)
    requires x in multiset(s)
    ensures s == a + ([x] + b)
    ensures multiset(a + b) == multiset(s) - multiset{x}
  {
    var i :| 0 <= i < |s| && s[i] == x;
    a, b := s[..i], s[i + 1..];
    assert s == a + [x] + b;
  }

  function Images<A, B>(f: A -> B, s: seq<A>): seq<B> {
    if s == [] then [] else [f(s[0])] + Images(f, s[1..])
  }

  lemma {:induction false} ImagesAt<A, B>(f: A -> B, s: seq<A>)
    ensures |Images(f, s)| == |s| && forall i | 0 <= i < |s| :: Images(f, s)[i] == f(s[i])
  {
    if s != [] {
      ImagesAt(f, s[1..]);
    }
  }

  lemma {:induction false} ImagesAppend<A, B>(f: A -> B, a: seq<A>, b: seq<A>)
    ensures Images(f, a + b) == Images(f, a) + Images(f, b)
  {
    if a == [] {
      assert a + b == b;
    } else {
      assert (a + b)[1..] == a[1..] + b;
      ImagesAppend(f, a[1..], b);
    }
  }

  lemma {:induction false} ImagesReordered<A, B>(f: A -> B, s: seq<A>, s': seq<A>)
    requires multiset(s) == multiset(s')
    ensures multiset(Images(f, s)) == multiset(Images(f, s'))
    decreases |s|
  {
    if s == [] {
      assert |multiset(s')| == 0;
    } else {
      var x := s[0];
      assert s == [x] + s[1..];
      assert x in multiset(s');
      var a, b := Cut(s', x);
      ImagesReordered(f, s[1..], a + b);
      ImagesAppend(f, a, b);
      ImagesAppend(f, a, [x] + b);
      assert Images(f, [x] + b) == [f(x)] + Images(f, b);
    }
  }

  lemma RdatasReordered(env: Env, first: ResourceRecord, owner: DnsName, rrsig: RrsigRecord,
                        records: seq<ResourceRecord>, records': seq<ResourceRecord>)
    requires multiset(records) == multiset(records')
    requires CanonicalRecords(env, first, owner, rrsig, records).Ok?
    requires CanonicalRecords(env, first, owner, rrsig, records').Ok?
    ensures multiset(CanonicalRecords(env, first, owner, rrsig, records).value)
         == multiset(CanonicalRecords(env, first, owner, rrsig, records').value)
  {
    var f := (record: ResourceRecord) => CanonicalRecord(env, first, owner, rrsig, record);
    RecordsImages(env, first, owner, rrsig, records, f);
    RecordsImages(env, first, owner, rrsig, records', f);
    ImagesReordered(f, records, records');
    ImagesReordered(Unwrapped, Images(f, records), Images(f, records'));
  }

  function Unwrapped(r: Result<ShortBytes, DnssecError>): ShortBytes {
    if r.Ok? then r.value else []
  }

  lemma RecordsImages(env: Env, first: ResourceRecord, owner: DnsName, rrsig: RrsigRecord, records: seq<ResourceRecord>,
                      f: ResourceRecord -> Result<ShortBytes, DnssecError>)
    requires CanonicalRecords(env, first, owner, rrsig, records).Ok?
    requires forall record :: f(record) == CanonicalRecord(env, first, owner, rrsig, record)
    ensures CanonicalRecords(env, first, owner, rrsig, records).value == Images(Unwrapped, Images(f, records))
  {
    RecordsCount(env, first, owner, rrsig, records);
    ImagesAt(f, records);
    ImagesAt(Unwrapped, Images(f, records));
  }

  lemma SameElements<T>(s: seq<T>, s': seq<T>)
    requires multiset(s) == multiset(s')
    ensures forall x :: x in s <==> x in s'
  {
    forall x ensures x in s <==> x in s' {
      assert x in s <==> x in multiset(s);
      assert x in s' <==> x in multiset(s');
    }
  }

  lemma NeighboursCount<T>(s: seq<T>, i: nat)
    requires i + 1 < |s| && s[i] == s[i + 1]
    ensures multiset(s)[s[i]] >= 2
  {
    assert s == s[..i] + [s[i], s[i]] + s[i + 2..];
  }

  lemma SortedDistinct(s: seq<ShortBytes>, s': seq<ShortBytes>)
    requires multiset(s) == multiset(s') && NoNeighboursEqual(Sorted(s))
    ensures NoNeighboursEqual(Sorted(s'))
  {
    SortedElements(s);
    SortedSorts(s);
    SortedSorts(s');
    var t' := Sorted(s');
    forall i | 0 <= i < |t'| - 1 ensures t'[i] != t'[i + 1] {
      if t'[i] == t'[i + 1] {
        NeighboursCount(t', i);
        OnceOnly(Sorted(s), t'[i]);
      }
    }
  }

  lemma {:induction false} OnceOnly(t: seq<ShortBytes>, x: ShortBytes)
    requires Ascending(t) && TotalOrder<seq<Byte>>(CompareRdata)
    ensures multiset(t)[x] <= 1
  {
    if t != [] {
      assert t == [t[0]] + t[1..];
      OnceOnly(t[1..], x);
      if t[0] == x {
        assert x !in t[1..];
      }
    }
  }

  /** With as many labels as the owner has, the canonical owner is the owner of every record. */
  lemma OwnerFixed(env: Env, rrset: seq<ResourceRecord>, rrsig: RrsigRecord)
    requires CanonicalRrset(env, rrset, rrsig).Ok? && rrsig.labels == |rrset[0].name|
    ensures CanonicalRrset(env, rrset, rrsig).value.owner == rrset[0].name
    ensures forall record <- rrset ::
              record.name == rrset[0].name && record.rtype == rrset[0].rtype && record.rclass == rrset[0].rclass
  {
    var owner := rrset[0].name;
    RecordsCount(env, rrset[0], owner, rrsig, rrset);
    forall record <- rrset ensures record.name == owner {
      assert CanonicalRecord(env, rrset[0], owner, rrsig, record).Ok?;
      assert CanonicalOwner(record.name, rrsig.labels) == Ok(owner);
    }
  }
}
