/** What the two policies decide, on the fields of the records and the bytes of the certificate alone. */
module TlsaVerdicts {
  import opened Wrappers
  import opened Der
  import opened DerErrors
  import opened TlsaPolicy

  // ---- One record ----

  /** The code points of a usable record. */
  lemma ParsedFields(rdata: seq<Byte>)
    ensures ParseUsable(rdata).Some? <==>
            && |rdata| >= 3 && rdata[0] <= 3 && rdata[1] <= 1
            && (|| (rdata[2] == 0 && |rdata| >= 4)
                || (rdata[2] == 1 && |rdata| == 35)
                || (rdata[2] == 2 && |rdata| == 67))
    ensures ParseUsable(rdata).Some? ==>
            var r := ParseUsable(rdata).value;
            && r.usage == [PkixTa, PkixEe, DaneTa, DaneEe][rdata[0]]
            && r.selector == [FullCertificate, SubjectPublicKeyInfo][rdata[1]]
            && r.matching == [Exact, Sha256, Sha512][rdata[2]]
            && r.association == rdata[3..]
  {
  }

  /** The association fits the certificate: its bytes or a hash of them, or the same of its key info. */
  ghost predicate Identifies(h: Hashes, r: TlsaRecord, certificate: seq<Byte>) {
    var (s, m, a) := (r.selector, r.matching, r.association);
    || (s == FullCertificate && m == Exact && a == certificate && a != [])
    || (s == FullCertificate && m == Sha256 && a == h.sha256(certificate) && |a| == 32)
    || (s == FullCertificate && m == Sha512 && a == h.sha512(certificate) && |a| == 64)
    || (s == SubjectPublicKeyInfo && m == Exact && ExtractSpki(certificate) == Ok(a) && a != [])
    || (s == SubjectPublicKeyInfo && m == Sha256 && ExtractSpki(certificate).Ok?
        && a == h.sha256(ExtractSpki(certificate).value) && |a| == 32)
    || (s == SubjectPublicKeyInfo && m == Sha512 && ExtractSpki(certificate).Ok?
        && a == h.sha512(ExtractSpki(certificate).value) && |a| == 64)
  }

  /** Some end-entity record is about the key info of the certificate. */
  ghost predicate AsksForKey(records: seq<TlsaRecord>) {
    exists r <- records :: (r.usage == PkixEe || r.usage == DaneEe) && r.selector == SubjectPublicKeyInfo
  }

  /** The key info can be read if it is needed. */
  ghost predicate KeyReadable(records: seq<TlsaRecord>, certificate: seq<Byte>) {
    AsksForKey(records) ==> ExtractSpki(certificate).Ok?
  }

  lemma SpkiForIs(records: seq<TlsaRecord>, certificate: seq<Byte>)
    ensures SpkiFor(records, certificate) == if AsksForKey(records) then ExtractSpki(certificate) else Ok([])
  {
    assert AsksForKey(records) <==> exists r <- records :: r.NeedsSpki();
  }

  /** With the key info that the policies derive, an end-entity record of the list matches exactly when it fits. */
  lemma MatchesIff(h: Hashes, records: seq<TlsaRecord>, certificate: seq<Byte>, r: TlsaRecord)
    requires KeyReadable(records, certificate) && r in records && (r.usage == PkixEe || r.usage == DaneEe)
    ensures SpkiFor(records, certificate).Ok?
    ensures Matches(h, r, certificate, SpkiFor(records, certificate).value) <==> Identifies(h, r, certificate)
  {
    SpkiForIs(records, certificate);
  }

  // ---- Without records ----

  /** Strict mode demands records; otherwise WebPKI decides, and says so. Both policies agree. */
  lemma NoRecordsVerdict(h: Hashes, input: Input, v: PathVerifier)
    requires input.records == []
    ensures CertificatePolicy(h, input) == PathPolicy(h, input, v)
    ensures var out := PathPolicy(h, input, v);
            && (input.mode == HnsStrict <==> out == Err(MissingRequiredTlsa))
            && (input.mode == IcannWebPki && input.webpki == Valid <==> out == Ok(WebPkiFallback))
            && (input.mode == IcannWebPki && input.webpki == Invalid <==> out == Err(WebPkiFailed))
            && (input.mode == IcannWebPki && input.webpki == NotEvaluated <==> out == Ok(NoTlsa))
  {
  }

  /** Records that are not secure are refused; the certificate-only policy reads the key info before it refuses. */
  lemma InsecureVerdict(h: Hashes, input: Input, v: PathVerifier)
    requires input.records != []
    ensures PathPolicy(h, input, v) == Err(InsecureTlsa) <==> !input.dnssecSecure
    ensures CertificatePolicy(h, input) == Err(InsecureTlsa) <==>
            !input.dnssecSecure && KeyReadable(input.records, input.certificate)
    ensures !KeyReadable(input.records, input.certificate) ==>
            CertificatePolicy(h, input) == Err(ExtractSpki(input.certificate).error)
  {
    SpkiForIs(input.records, input.certificate);
    SpkiForIs(Distinct(input.records), input.certificate);
    ExtractErrorKinds(input.certificate);
  }

  // ---- The certificate-only policy ----

  /** An end-entity record that fits the certificate and, for the PKIX usage, has WebPKI on its side. */
  ghost predicate Decides(h: Hashes, r: TlsaRecord, certificate: seq<Byte>, webpki: WebPki) {
    && (r.usage == DaneEe || (r.usage == PkixEe && webpki == Valid))
    && Identifies(h, r, certificate)
  }

  /** The first record that decides is at position `i`. */
  ghost predicate FirstDeciding(h: Hashes, input: Input, i: nat) {
    && i < |input.records| && Decides(h, input.records[i], input.certificate, input.webpki)
    && forall j: nat | j < i :: !Decides(h, input.records[j], input.certificate, input.webpki)
  }

  lemma AuthorizesIff(h: Hashes, records: seq<TlsaRecord>, certificate: seq<Byte>, webpki: WebPki, r: TlsaRecord)
    requires KeyReadable(records, certificate) && r in records
    ensures SpkiFor(records, certificate).Ok?
    ensures Authorizes(h, r, certificate, SpkiFor(records, certificate).value, webpki) <==>
            Decides(h, r, certificate, webpki)
  {
    SpkiForIs(records, certificate);
    if r.usage == PkixEe || r.usage == DaneEe {
      MatchesIff(h, records, certificate, r);
    }
  }

  lemma {:induction false} FirstAuthorizingAt(h: Hashes, records: seq<TlsaRecord>, certificate: seq<Byte>,
                                              spki: seq<Byte>, webpki: WebPki) returns (i: nat)
    requires FirstAuthorizing(h, records, certificate, spki, webpki).Some?
    ensures i < |records| && Authorizes(h, records[i], certificate, spki, webpki)
    ensures FirstAuthorizing(h, records, certificate, spki, webpki) == Some(records[i].usage)
    ensures forall j: nat | j < i :: !Authorizes(h, records[j], certificate, spki, webpki)
    decreases |records|
  {
    if Authorizes(h, records[0], certificate, spki, webpki) {
      i := 0;
    } else {
      var k := FirstAuthorizingAt(h, records[1..], certificate, spki, webpki);
      i := k + 1;
    }
  }

  lemma ReportedIsFirst(h: Hashes, input: Input, spki: seq<Byte>)
    requires SpkiFor(input.records, input.certificate) == Ok(spki)
    ensures forall usage ::
              FirstAuthorizing(h, input.records, input.certificate, spki, input.webpki) == Some(usage) <==>
              exists i: nat :: FirstDeciding(h, input, i) && input.records[i].usage == usage
    ensures FirstAuthorizing(h, input.records, input.certificate, spki, input.webpki).None? <==>
            forall r <- input.records :: !Decides(h, r, input.certificate, input.webpki)
  {
    var (records, certificate, webpki) := (input.records, input.certificate, input.webpki);
    SpkiForIs(records, certificate);
    forall r | r in records
      ensures Authorizes(h, r, certificate, spki, webpki) <==> Decides(h, r, certificate, webpki)
    {
      AuthorizesIff(h, records, certificate, webpki, r);
    }
    FirstAuthorizingIff(h, records, certificate, spki, webpki);
    if FirstAuthorizing(h, records, certificate, spki, webpki).Some? {
      var i := FirstAuthorizingAt(h, records, certificate, spki, webpki);
      assert FirstDeciding(h, input, i);
      assert forall j: nat | FirstDeciding(h, input, j) :: j == i;
    }
  }

  /** A PKIX end-entity record that fits the certificate. */
  ghost predicate PkixEeFits(h: Hashes, input: Input) {
    exists r <- input.records :: r.usage == PkixEe && Identifies(h, r, input.certificate)
  }

  /**
   * Everything the certificate-only policy can say of secure records with a readable certificate: the usage of the
   * first record that decides; otherwise, that a trust-anchor record needs a path; otherwise, that WebPKI alone stood
   * in the way of a PKIX record that fits; otherwise, that no record fits.
   */
  lemma CertificateVerdict(h: Hashes, input: Input)
    requires input.records != [] && input.dnssecSecure && KeyReadable(input.records, input.certificate)
    ensures var out := CertificatePolicy(h, input);
            var decided := exists i: nat :: FirstDeciding(h, input, i);
            var anchors := exists r <- input.records :: r.usage == PkixTa || r.usage == DaneTa;
            && (forall usage :: out == Ok(Matched(usage)) <==>
                  exists i: nat :: FirstDeciding(h, input, i) && input.records[i].usage == usage)
            && (out == Err(PathValidationRequired) <==> !decided && anchors)
            && (out == Err(WebPkiFailed) <==> !decided && !anchors && PkixEeFits(h, input))
            && (out == Ok(Failed) <==> !decided && !anchors && !PkixEeFits(h, input))
  {
    SpkiForIs(input.records, input.certificate);
    var spki := SpkiFor(input.records, input.certificate).value;
    ReportedIsFirst(h, input, spki);
    match FirstAuthorizing(h, input.records, input.certificate, spki, input.webpki)
    case None =>
      UndecidedVerdict(h, input, spki);
      assert forall i: nat :: !FirstDeciding(h, input, i);
    case Some(usage) =>
      assert CertificatePolicy(h, input) == Ok(Matched(usage));
  }

  lemma UndecidedVerdict(h: Hashes, input: Input, spki: seq<Byte>)
    requires KeyReadable(input.records, input.certificate) && SpkiFor(input.records, input.certificate) == Ok(spki)
    requires forall r <- input.records :: !Decides(h, r, input.certificate, input.webpki)
    ensures (exists r <- input.records :: !r.IsEe()) <==>
            exists r <- input.records :: r.usage == PkixTa || r.usage == DaneTa
    ensures (exists r <- input.records :: MatchesEe(h, r, input.certificate, spki)) <==> PkixEeFits(h, input)
  {
    forall r | r in input.records
      ensures MatchesEe(h, r, input.certificate, spki) <==> r.usage == PkixEe && Identifies(h, r, input.certificate)
    {
      if r.usage == PkixEe || r.usage == DaneEe {
        MatchesIff(h, input.records, input.certificate, r);
      }
    }
  }

  // ---- With a path verifier ----

  ghost predicate UsageFits(h: Hashes, records: seq<TlsaRecord>, usage: Usage, certificate: seq<Byte>) {
    exists r <- records :: r.usage == usage && Identifies(h, r, certificate)
  }

  /** At most 256 records, and at most 64 different ones. */
  ghost predicate Within(records: seq<TlsaRecord>) {
    |records| <= 256 && |set r | r in records| <= 64
  }

  lemma UsageMatchesIff(h: Hashes, records: seq<TlsaRecord>, usage: Usage, certificate: seq<Byte>, spki: seq<Byte>)
    requires usage == PkixEe || usage == DaneEe
    requires KeyReadable(records, certificate) && SpkiFor(records, certificate) == Ok(spki)
    ensures UsageMatches(h, records, usage, certificate, spki) <==> UsageFits(h, records, usage, certificate)
  {
    forall r | r in records && r.usage == usage
      ensures Matches(h, r, certificate, spki) <==> Identifies(h, r, certificate)
    {
      MatchesIff(h, records, certificate, r);
    }
  }

  ghost function FirstIndex(records: seq<TlsaRecord>, r: TlsaRecord): (k: nat)
    requires r in records
    ensures k < |records| && records[k] == r && r !in records[..k]
  {
    if records[0] == r then 0
    else
      var rest := FirstIndex(records[1..], r);
      assert records[..rest + 1] == [records[0]] + records[1..][..rest];
      rest + 1
  }

  /** The records of one usage, each once, in the order of their first occurrence: what the verifier is asked about. */
  ghost predicate Anchors(records: seq<TlsaRecord>, usage: Usage, anchors: seq<TlsaRecord>) {
    && (forall r :: r in anchors <==> r in records && r.usage == usage)
    && (forall i: nat, j: nat | i < j < |anchors| ::
          FirstIndex(records, anchors[i]) < FirstIndex(records, anchors[j]))
  }

  lemma FirstIndexInit(init: seq<TlsaRecord>, last: TlsaRecord, r: TlsaRecord)
    requires r in init + [last]
    ensures FirstIndex(init + [last], r) == if r in init then FirstIndex(init, r) else |init|
  {
    var (records, k) := (init + [last], FirstIndex(init + [last], r));
    if r in init {
      var l := FirstIndex(init, r);
      assert records[l] == r && forall i: nat | i < l :: records[i] == init[..l][i] && records[i] != r;
      assert forall i: nat | i < k :: records[i] == records[..k][i] && records[i] != r;
    }
  }

  lemma {:induction false} WithUsageAppend(init: seq<TlsaRecord>, last: TlsaRecord, usage: Usage)
    ensures WithUsage(init + [last], usage) == WithUsage(init, usage) + if last.usage == usage then [last] else []
    decreases |init|
  {
    if init == [] {
      assert init + [last] == [last] && [last][1..] == [];
    } else {
      var rest := init[1..];
      assert (init + [last])[1..] == rest + [last];
      WithUsageAppend(rest, last, usage);
      var head := if init[0].usage == usage then [init[0]] else [];
      assert WithUsage(init + [last], usage) == head + WithUsage(rest + [last], usage);
    }
  }

  lemma {:induction false} AnchorsAre(records: seq<TlsaRecord>, usage: Usage)
    ensures Anchors(records, usage, WithUsage(Distinct(records), usage))
    decreases |records|
  {
    if records != [] {
      var (init, last) := (records[..|records| - 1], records[|records| - 1]);
      AnchorsAre(init, usage);
      assert records == init + [last];
      if last !in init {
        WithUsageAppend(Distinct(init), last, usage);
        AnchorsAppend(init, usage, WithUsage(Distinct(init), usage), last);
      } else {
        AnchorsRepeat(init, usage, WithUsage(Distinct(init), usage), last);
      }
    }
  }

  lemma AnchorsAppend(init: seq<TlsaRecord>, usage: Usage, anchors: seq<TlsaRecord>, last: TlsaRecord)
    requires Anchors(init, usage, anchors) && last !in init
    ensures Anchors(init + [last], usage, anchors + if last.usage == usage then [last] else [])
  {
    var records, grown := init + [last], anchors + if last.usage == usage then [last] else [];
    assert forall r :: r in records <==> r in init || r == last;
    assert forall r :: r in grown <==> r in anchors || (r == last && last.usage == usage);
    forall i: nat, j: nat | i < j < |grown| ensures FirstIndex(records, grown[i]) < FirstIndex(records, grown[j]) {
      assert grown[i] == anchors[i] && anchors[i] in anchors;
      FirstIndexInit(init, last, grown[i]);
      FirstIndexInit(init, last, grown[j]);
      assert j < |anchors| ==> grown[j] in anchors;
    }
  }

  lemma AnchorsRepeat(init: seq<TlsaRecord>, usage: Usage, anchors: seq<TlsaRecord>, last: TlsaRecord)
    requires Anchors(init, usage, anchors) && last in init
    ensures Anchors(init + [last], usage, anchors)
  {
    forall r | r in init ensures FirstIndex(init + [last], r) == FirstIndex(init, r) {
      FirstIndexInit(init, last, r);
    }
    assert forall r <- anchors :: r in init;
  }

  /** That fixes the list. */
  lemma {:induction false} AnchorsUnique(records: seq<TlsaRecord>, usage: Usage, a: seq<TlsaRecord>, b: seq<TlsaRecord>)
    requires Anchors(records, usage, a) && Anchors(records, usage, b)
    ensures a == b
  {
    AnchorsPrefix(records, usage, a, b, |a|);
    AnchorsPrefix(records, usage, b, a, |b|);
  }

  lemma {:induction false} AnchorsPrefix(records: seq<TlsaRecord>, usage: Usage, a: seq<TlsaRecord>, b: seq<TlsaRecord>,
                                         n: nat)
    requires Anchors(records, usage, a) && Anchors(records, usage, b) && n <= |a|
    ensures n <= |b| && a[..n] == b[..n]
    decreases n
  {
    if n > 0 {
      AnchorsPrefix(records, usage, a, b, n - 1);
      SameNext(records, usage, a, b, n - 1);
      assert a[..n] == a[..n - 1] + [a[n - 1]] && b[..n] == b[..n - 1] + [b[n - 1]];
    }
  }

  /** Behind a common prefix of two such lists the same record follows: the one that occurs first. */
  lemma SameNext(records: seq<TlsaRecord>, usage: Usage, a: seq<TlsaRecord>, b: seq<TlsaRecord>, n: nat)
    requires Anchors(records, usage, a) && Anchors(records, usage, b)
    requires n < |a| && n <= |b| && a[..n] == b[..n]
    ensures n < |b| && a[n] == b[n]
  {
    var p := Place(records, usage, a, b, n);
    var q := Place(records, usage, b, a, n);
    assert p > n ==> FirstIndex(records, b[n]) < FirstIndex(records, b[p]);
    assert q > n ==> FirstIndex(records, a[n]) < FirstIndex(records, a[q]);
  }

  lemma Place(records: seq<TlsaRecord>, usage: Usage, a: seq<TlsaRecord>, b: seq<TlsaRecord>, n: nat) returns (p: nat)
    requires Anchors(records, usage, a) && Anchors(records, usage, b)
    requires n < |a| && n <= |b| && a[..n] == b[..n]
    ensures n <= p < |b| && b[p] == a[n]
  {
    assert forall i: nat | i < n :: a[i] == a[..n][i] == b[..n][i] == b[i];
    assert a[n] in a;
    p :| p < |b| && b[p] == a[n];
    assert forall i: nat | i < n :: FirstIndex(records, a[i]) < FirstIndex(records, a[n]);
  }

  /**
   * Everything the policy with a verifier can say of secure records within the limits and with a readable certificate.
   * A DANE-EE record that fits wins; then a PKIX-EE record that fits, if WebPKI agrees; then the verifier on the
   * DANE-TA records; then, if WebPKI agrees, on the PKIX-TA records; then the WebPKI error, if a PKIX record is there
   * for it; and otherwise nothing fits.
   */
  lemma PathVerdict(h: Hashes, input: Input, v: PathVerifier, daneTa: seq<TlsaRecord>, pkixTa: seq<TlsaRecord>)
    requires input.records != [] && input.dnssecSecure && Within(input.records)
    requires KeyReadable(input.records, input.certificate)
    requires Anchors(input.records, DaneTa, daneTa) && Anchors(input.records, PkixTa, pkixTa)
    ensures PathPolicy(h, input, v) ==
            var (records, certificate, valid) := (input.records, input.certificate, input.webpki == Valid);
            if UsageFits(h, records, DaneEe, certificate) then Ok(Matched(DaneEe))
            else if UsageFits(h, records, PkixEe, certificate) && valid then Ok(Matched(PkixEe))
            else if |daneTa| > 0 && v.matchesDaneTa(daneTa) then Ok(Matched(DaneTa))
            else if |pkixTa| > 0 && v.matchesPkixTa(pkixTa) && valid then Ok(Matched(PkixTa))
            else if (UsageFits(h, records, PkixEe, certificate) || |pkixTa| > 0) && !valid then Err(WebPkiFailed)
            else Ok(Failed)
  {
    var (records, certificate) := (input.records, input.certificate);
    SpkiForIs(records, certificate);
    var spki := SpkiFor(records, certificate).value;
    AnchorsAre(records, DaneTa);
    AnchorsAre(records, PkixTa);
    AnchorsUnique(records, DaneTa, daneTa, WithUsage(Distinct(records), DaneTa));
    AnchorsUnique(records, PkixTa, pkixTa, WithUsage(Distinct(records), PkixTa));
    DistinctOf(records);
    assert Elements(records) == set r | r in records;
    SameElements(Distinct(records), records);
    SameSpki(records, certificate);
    DistinctMatches(h, records, DaneEe, certificate, spki);
    DistinctMatches(h, records, PkixEe, certificate, spki);
  }

  lemma SameSpki(records: seq<TlsaRecord>, certificate: seq<Byte>)
    requires SameRecords(Distinct(records), records)
    ensures SpkiFor(Distinct(records), certificate) == SpkiFor(records, certificate)
  {
    SpkiForIs(records, certificate);
    SpkiForIs(Distinct(records), certificate);
  }

  lemma DistinctMatches(h: Hashes, records: seq<TlsaRecord>, usage: Usage, certificate: seq<Byte>, spki: seq<Byte>)
    requires usage == PkixEe || usage == DaneEe
    requires SameRecords(Distinct(records), records)
    requires KeyReadable(records, certificate) && SpkiFor(records, certificate) == Ok(spki)
    ensures AnyMatch(h, Distinct(records), usage, certificate, spki) <==> UsageFits(h, records, usage, certificate)
  {
    UsageMatchesIff(h, records, usage, certificate, spki);
    assert AnyMatch(h, Distinct(records), usage, certificate, spki) <==>
           UsageMatches(h, records, usage, certificate, spki);
  }

  /** Beyond the limits, or when the key info is needed and cannot be read, the answer is that error. */
  lemma PathErrors(h: Hashes, input: Input, v: PathVerifier)
    requires input.records != [] && input.dnssecSecure
    ensures !Within(input.records) ==> PathPolicy(h, input, v) == Err(TooManyTlsaRecords)
    ensures Within(input.records) && !KeyReadable(input.records, input.certificate) ==>
            PathPolicy(h, input, v) == Err(ExtractSpki(input.certificate).error)
  {
    DistinctOf(input.records);
    assert Elements(input.records) == set r | r in input.records;
    SameElements(Distinct(input.records), input.records);
    SameSpki(input.records, input.certificate);
    SpkiForIs(input.records, input.certificate);
  }

  // ---- A single record ----

  /** One DANE end-entity record on the whole certificate. */
  lemma SingleFullRecord(h: Hashes, input: Input, v: PathVerifier, matching: Matching, association: seq<Byte>)
    requires input.dnssecSecure
    requires input.records == [TlsaRecord(DaneEe, FullCertificate, matching, association)]
    ensures CertificatePolicy(h, input) == PathPolicy(h, input, v)
    ensures PathPolicy(h, input, v) ==
            if match matching
               case Exact => association == input.certificate && |association| >= 1
               case Sha256 => association == h.sha256(input.certificate) && |association| == 32
               case Sha512 => association == h.sha512(input.certificate) && |association| == 64
            then Ok(Matched(DaneEe)) else Ok(Failed)
  {
    SingleRecord(h, input, v);
  }

  /** One DANE end-entity record on the key info, which both policies take from the certificate itself. */
  lemma SingleKeyRecord(h: Hashes, input: Input, v: PathVerifier, matching: Matching, association: seq<Byte>,
                        key: seq<Byte>)
    requires input.dnssecSecure && ExtractSpki(input.certificate) == Ok(key)
    requires input.records == [TlsaRecord(DaneEe, SubjectPublicKeyInfo, matching, association)]
    ensures CertificatePolicy(h, input) == PathPolicy(h, input, v)
    ensures PathPolicy(h, input, v) ==
            if match matching
               case Exact => association == key && |association| >= 1
               case Sha256 => association == h.sha256(key) && |association| == 32
               case Sha512 => association == h.sha512(key) && |association| == 64
            then Ok(Matched(DaneEe)) else Ok(Failed)
  {
    SingleRecord(h, input, v);
  }

  lemma SingleRecord(h: Hashes, input: Input, v: PathVerifier)
    requires |input.records| == 1 && input.records[0].usage == DaneEe && input.dnssecSecure
    requires KeyReadable(input.records, input.certificate)
    ensures CertificatePolicy(h, input) == PathPolicy(h, input, v)
    ensures PathPolicy(h, input, v) ==
            if Identifies(h, input.records[0], input.certificate) then Ok(Matched(DaneEe)) else Ok(Failed)
  {
    var r := input.records[0];
    assert input.records == [r];
    assert (set x | x in input.records) == {r};
    PathVerdict(h, input, v, [], []);
    CertificateVerdict(h, input);
    if Identifies(h, r, input.certificate) {
      assert FirstDeciding(h, input, 0);
    }
  }
}
