/** TLSA records and the two policies that weigh them: certificate only, and with a certificate-path verifier. */
module TlsaPolicy {
  import opened Wrappers
  import opened Der
  import opened DerErrors

  datatype Usage = PkixTa | PkixEe | DaneTa | DaneEe
  datatype Selector = FullCertificate | SubjectPublicKeyInfo
  datatype Matching = Exact | Sha256 | Sha512

  datatype TlsaRecord = TlsaRecord(usage: Usage, selector: Selector, matching: Matching, association: seq<Byte>) {
    predicate IsEe() {
      usage.PkixEe? || usage.DaneEe?
    }

    predicate IsPkix() {
      usage.PkixTa? || usage.PkixEe?
    }

    predicate Usable() {
      match matching
      case Exact => |association| >= 1
      case Sha256 => |association| == 32
      case Sha512 => |association| == 64
    }

    predicate NeedsSpki() {
      IsEe() && selector.SubjectPublicKeyInfo?
    }
  }

  // ---- Record data ----

  function ParseUsable(rdata: seq<Byte>): Option<TlsaRecord> {
    if |rdata| < 3 || rdata[0] > 3 || rdata[1] > 1 || rdata[2] > 2 then None
    else
      var usage :=
        if rdata[0] == 0 then PkixTa else if rdata[0] == 1 then PkixEe else if rdata[0] == 2 then DaneTa else DaneEe;
      var selector := if rdata[1] == 0 then FullCertificate else SubjectPublicKeyInfo;
      var matching := if rdata[2] == 0 then Exact else if rdata[2] == 1 then Sha256 else Sha512;
      var record := TlsaRecord(usage, selector, matching, rdata[3..]);
      if record.Usable() then Some(record) else None
  }

  /** The record data of a TLSA record: three code points and the association data. */
  function Rdata(r: TlsaRecord): seq<Byte> {
    var usage: Byte := match r.usage case PkixTa => 0 case PkixEe => 1 case DaneTa => 2 case DaneEe => 3;
    var selector: Byte := if r.selector.FullCertificate? then 0 else 1;
    var matching: Byte := match r.matching case Exact => 0 case Sha256 => 1 case Sha512 => 2;
    [usage, selector, matching] + r.association
  }

  /** Parsing accepts exactly the record data of usable records and gives the record back. */
  lemma ParseUsableIff(rdata: seq<Byte>, r: TlsaRecord)
    ensures ParseUsable(rdata) == Some(r) <==> rdata == Rdata(r) && r.Usable()
  {
    assert Rdata(r)[3..] == r.association;
    if ParseUsable(rdata) == Some(r) {
      assert rdata == rdata[..3] + rdata[3..];
    }
  }

  // ---- Inputs ----

  datatype Mode = HnsStrict | IcannWebPki
  datatype WebPki = Valid | Invalid | NotEvaluated
  datatype Decision = NoTlsa | Matched(usage: Usage) | WebPkiFallback | Failed

  datatype Hashes = Hashes(sha256: seq<Byte> -> seq<Byte>, sha512: seq<Byte> -> seq<Byte>)

  datatype PathVerifier = PathVerifier(matchesPkixTa: seq<TlsaRecord> -> bool, matchesDaneTa: seq<TlsaRecord> -> bool)

  datatype Input = Input(
    mode: Mode,
    dnssecSecure: bool,
    records: seq<TlsaRecord>,
    certificate: seq<Byte>,
    webpki: WebPki)

  const MAX_DISTINCT_RECORDS: nat := 64
  const MAX_INPUT_RECORDS: nat := 256

  predicate Matches(h: Hashes, r: TlsaRecord, certificate: seq<Byte>, spki: seq<Byte>) {
    && r.Usable()
    && var selected := if r.selector.FullCertificate? then certificate else spki;
       match r.matching
       case Exact => selected == r.association
       case Sha256 => h.sha256(selected) == r.association
       case Sha512 => h.sha512(selected) == r.association
  }

  /** The key info, derived from the certificate and only when an end-entity record asks for it. */
  function SpkiFor(records: seq<TlsaRecord>, certificate: seq<Byte>): Result<seq<Byte>, DaneError> {
    if exists r <- records :: r.NeedsSpki() then ExtractSpki(certificate) else Ok([])
  }

  function EvaluateNoTlsa(mode: Mode, webpki: WebPki): Result<Decision, DaneError> {
    match mode
    case HnsStrict => Err(MissingRequiredTlsa)
    case IcannWebPki =>
      match webpki
      case Valid => Ok(WebPkiFallback)
      case Invalid => Err(WebPkiFailed)
      case NotEvaluated => Ok(NoTlsa)
  }

  // ---- The certificate-only policy ----

  /** An end-entity record that matches the presented certificate. */
  predicate MatchesEe(h: Hashes, r: TlsaRecord, certificate: seq<Byte>, spki: seq<Byte>) {
    r.IsEe() && Matches(h, r, certificate, spki)
  }

  /** An end-entity record that matches and whose usage WebPKI does not veto. */
  predicate Authorizes(h: Hashes, r: TlsaRecord, certificate: seq<Byte>, spki: seq<Byte>, webpki: WebPki) {
    MatchesEe(h, r, certificate, spki) && (r.IsPkix() ==> webpki.Valid?)
  }

  function FirstAuthorizing(h: Hashes, records: seq<TlsaRecord>, certificate: seq<Byte>, spki: seq<Byte>,
                            webpki: WebPki): Option<Usage>
  {
    if records == [] then None
    else if Authorizes(h, records[0], certificate, spki, webpki) then Some(records[0].usage)
    else FirstAuthorizing(h, records[1..], certificate, spki, webpki)
  }

  function ForChain(h: Hashes, records: seq<TlsaRecord>, certificate: seq<Byte>, spki: seq<Byte>, webpki: WebPki)
    : Result<Decision, DaneError>
  {
    match FirstAuthorizing(h, records, certificate, spki, webpki)
    case Some(usage) => Ok(Matched(usage))
    case None =>
      if exists r <- records :: !r.IsEe() then Err(PathValidationRequired)
      else if exists r <- records :: MatchesEe(h, r, certificate, spki) then Err(WebPkiFailed)
      else Ok(Failed)
  }

  method EvaluateTlsaForChain(h: Hashes, records: seq<TlsaRecord>, certificate: seq<Byte>, spki: seq<Byte>,
                              webpki: WebPki)
    returns (r: Result<Decision, DaneError>)
    ensures r == ForChain(h, records, certificate, spki, webpki)
  {
    var rejected := false;
    for i := 0 to |records|
      invariant FirstAuthorizing(h, records, certificate, spki, webpki)
             == FirstAuthorizing(h, records[i..], certificate, spki, webpki)
      invariant rejected <==> exists k :: 0 <= k < i && MatchesEe(h, records[k], certificate, spki)
    {
      assert records[i..][1..] == records[i + 1..];
      if !(records[i].IsEe() && Matches(h, records[i], certificate, spki)) {
        continue;
      }
      assert MatchesEe(h, records[i], certificate, spki);
      if records[i].IsPkix() && !webpki.Valid? {
        rejected := true;
        continue;
      }
      return Ok(Matched(records[i].usage));
    }
    if exists r <- records :: !r.IsEe() {
      return Err(PathValidationRequired);
    } else if rejected {
      return Err(WebPkiFailed);
    } else {
      return Ok(Failed);
    }
  }

  function CertificatePolicy(h: Hashes, input: Input): Result<Decision, DaneError> {
    var spki :- SpkiFor(input.records, input.certificate);
    if input.records == [] then EvaluateNoTlsa(input.mode, input.webpki)
    else if !input.dnssecSecure then Err(InsecureTlsa)
    else ForChain(h, input.records, input.certificate, spki, input.webpki)
  }

  // ---- The policy with a path verifier ----

  ghost function Elements(records: seq<TlsaRecord>): set<TlsaRecord> {
    set r | r in records
  }

  /** The records without repetitions, each where it first occurs. */
  function Distinct(records: seq<TlsaRecord>): seq<TlsaRecord> {
    if records == [] then []
    else
      var (init, last) := (records[..|records| - 1], records[|records| - 1]);
      if last in init then Distinct(init) else Distinct(init) + [last]
  }

  function WithUsage(records: seq<TlsaRecord>, usage: Usage): seq<TlsaRecord> {
    if records == [] then []
    else (if records[0].usage == usage then [records[0]] else []) + WithUsage(records[1..], usage)
  }

  predicate AnyMatch(h: Hashes, records: seq<TlsaRecord>, usage: Usage, certificate: seq<Byte>, spki: seq<Byte>) {
    exists r <- records :: r.usage == usage && Matches(h, r, certificate, spki)
  }

  /** The decision on records already free of repetitions. */
  function Weigh(h: Hashes, records: seq<TlsaRecord>, certificate: seq<Byte>, webpki: WebPki, v: PathVerifier)
    : Result<Decision, DaneError>
  {
    var spki :- SpkiFor(records, certificate);
    var pkixEe := AnyMatch(h, records, PkixEe, certificate, spki);
    var (daneTa, pkixTa) := (WithUsage(records, DaneTa), WithUsage(records, PkixTa));
    if AnyMatch(h, records, DaneEe, certificate, spki) then Ok(Matched(DaneEe))
    else if pkixEe && webpki.Valid? then Ok(Matched(PkixEe))
    else if daneTa != [] && v.matchesDaneTa(daneTa) then Ok(Matched(DaneTa))
    else if pkixTa != [] && webpki.Valid? && v.matchesPkixTa(pkixTa) then Ok(Matched(PkixTa))
    else if !webpki.Valid? && (pkixEe || pkixTa != []) then Err(WebPkiFailed)
    else Ok(Failed)
  }

  function PathPolicy(h: Hashes, input: Input, v: PathVerifier): Result<Decision, DaneError> {
    if input.records == [] then EvaluateNoTlsa(input.mode, input.webpki)
    else if !input.dnssecSecure then Err(InsecureTlsa)
    else if |input.records| > MAX_INPUT_RECORDS then Err(TooManyTlsaRecords)
    else if |Distinct(input.records)| > MAX_DISTINCT_RECORDS then Err(TooManyTlsaRecords)
    else Weigh(h, Distinct(input.records), input.certificate, input.webpki, v)
  }

  /** Repetitions dropped with a set of records seen, giving up beyond the limit. */
  method Deduplicate(input: seq<TlsaRecord>) returns (r: Result<seq<TlsaRecord>, DaneError>)
    ensures r == if |Distinct(input)| > MAX_DISTINCT_RECORDS then Err(TooManyTlsaRecords) else Ok(Distinct(input))
  {
    var seen: set<TlsaRecord>, records := {}, [];
    for i := 0 to |input|
      invariant seen == Elements(input[..i])
      invariant records == Distinct(input[..i]) && |records| <= MAX_DISTINCT_RECORDS
    {
      assert input[..i + 1][..i] == input[..i];
      if input[i] !in seen {
        seen := seen + {input[i]};
        records := records + [input[i]];
        if |records| > MAX_DISTINCT_RECORDS {
          DistinctGrows(input, i + 1);
          return Err(TooManyTlsaRecords);
        }
      }
    }
    assert input[..|input|] == input;
    return Ok(records);
  }

  method EvaluatePolicyWithPathVerifier(h: Hashes, input: Input, v: PathVerifier)
    returns (r: Result<Decision, DaneError>)
    ensures r == PathPolicy(h, input, v)
  {
    if input.records == [] {
      return EvaluateNoTlsa(input.mode, input.webpki);
    }
    if !input.dnssecSecure {
      return Err(InsecureTlsa);
    }
    if |input.records| > MAX_INPUT_RECORDS {
      return Err(TooManyTlsaRecords);
    }
    var distinct := Deduplicate(input.records);
    var records :- distinct;
    return Weigh(h, records, input.certificate, input.webpki, v);
  }

  // ---- What deduplication keeps ----

  lemma {:induction false} DistinctOf(records: seq<TlsaRecord>)
    ensures Elements(Distinct(records)) == Elements(records) && |Distinct(records)| == |Elements(records)|
    decreases |records|
  {
    if records != [] {
      var (init, last) := (records[..|records| - 1], records[|records| - 1]);
      DistinctOf(init);
      assert records == init + [last];
      assert Elements(records) == Elements(init) + {last};
      if last !in init {
        assert Elements(Distinct(init) + [last]) == Elements(Distinct(init)) + {last};
      }
    }
  }

  /** Later records never move the earlier ones. */
  lemma {:induction false} DistinctGrows(records: seq<TlsaRecord>, k: nat)
    requires k <= |records|
    ensures Distinct(records[..k]) <= Distinct(records)
    decreases |records|
  {
    if k < |records| {
      DistinctGrows(records[..|records| - 1], k);
      assert records[..|records| - 1][..k] == records[..k];
    } else {
      assert records[..k] == records;
    }
  }

  lemma {:induction false} WithUsageOf(records: seq<TlsaRecord>, usage: Usage)
    ensures forall r :: r in WithUsage(records, usage) <==> r in records && r.usage == usage
    decreases |records|
  {
    if records != [] {
      WithUsageOf(records[1..], usage);
    }
  }

  lemma {:induction false} FirstAuthorizingIff(h: Hashes, records: seq<TlsaRecord>, certificate: seq<Byte>,
                                               spki: seq<Byte>, webpki: WebPki)
    ensures FirstAuthorizing(h, records, certificate, spki, webpki).Some?
            <==> exists r :: r in records && Authorizes(h, r, certificate, spki, webpki)
    decreases |records|
  {
    if records != [] {
      FirstAuthorizingIff(h, records[1..], certificate, spki, webpki);
    }
  }

  // ---- Only the set of records matters ----

  ghost predicate SetBased(f: seq<TlsaRecord> -> bool) {
    forall a, b :: Elements(a) == Elements(b) ==> f(a) == f(b)
  }

  /** The records of one list are those of the other. */
  ghost predicate SameRecords(a: seq<TlsaRecord>, b: seq<TlsaRecord>) {
    forall r :: r in a <==> r in b
  }

  lemma SameElements(a: seq<TlsaRecord>, b: seq<TlsaRecord>)
    ensures SameRecords(a, b) <==> Elements(a) == Elements(b)
  {
    if Elements(a) == Elements(b) {
      forall r ensures r in a <==> r in b {
        assert r in Elements(a) <==> r in Elements(b);
      }
    }
  }

  lemma SameWithUsage(a: seq<TlsaRecord>, b: seq<TlsaRecord>, usage: Usage, f: seq<TlsaRecord> -> bool)
    requires SameRecords(a, b) && SetBased(f)
    ensures WithUsage(a, usage) == [] <==> WithUsage(b, usage) == []
    ensures f(WithUsage(a, usage)) == f(WithUsage(b, usage))
  {
    var (x, y) := (WithUsage(a, usage), WithUsage(b, usage));
    WithUsageOf(a, usage);
    WithUsageOf(b, usage);
    SameElements(x, y);
    assert x != [] ==> x[0] in y;
    assert y != [] ==> y[0] in x;
  }

  lemma WeighDependsOnSet(h: Hashes, a: seq<TlsaRecord>, b: seq<TlsaRecord>, certificate: seq<Byte>, webpki: WebPki,
                          v: PathVerifier)
    requires SameRecords(a, b) && SetBased(v.matchesPkixTa) && SetBased(v.matchesDaneTa)
    ensures Weigh(h, a, certificate, webpki, v) == Weigh(h, b, certificate, webpki, v)
  {
    SameWithUsage(a, b, DaneTa, v.matchesDaneTa);
    SameWithUsage(a, b, PkixTa, v.matchesPkixTa);
  }

  /** Neither order nor repetition of the records shows in the result, within the input limit. */
  lemma PathPolicyDependsOnSet(h: Hashes, input: Input, records: seq<TlsaRecord>, v: PathVerifier)
    requires |input.records| <= MAX_INPUT_RECORDS && |records| <= MAX_INPUT_RECORDS
    requires SameRecords(input.records, records) && SetBased(v.matchesPkixTa) && SetBased(v.matchesDaneTa)
    ensures PathPolicy(h, input, v) == PathPolicy(h, input.(records := records), v)
  {
    var (a, b) := (Distinct(input.records), Distinct(records));
    DistinctOf(input.records);
    DistinctOf(records);
    SameElements(input.records, records);
    SameElements(a, b);
    WeighDependsOnSet(h, a, b, input.certificate, input.webpki, v);
    assert input.records == [] <==> records == [] by {
      assert input.records != [] ==> input.records[0] in records;
      assert records != [] ==> records[0] in input.records;
    }
  }

  /** The certificate-only policy reports the first matching usage, so there only the usage may depend on the order. */
  predicate SameVerdict(x: Result<Decision, DaneError>, y: Result<Decision, DaneError>) {
    x == y || (x.Ok? && y.Ok? && x.value.Matched? && y.value.Matched?)
  }

  lemma CertificatePolicyDependsOnSet(h: Hashes, input: Input, records: seq<TlsaRecord>)
    requires SameRecords(input.records, records)
    ensures SameVerdict(CertificatePolicy(h, input), CertificatePolicy(h, input.(records := records)))
  {
    assert input.records == [] <==> records == [] by {
      assert input.records != [] ==> input.records[0] in records;
      assert records != [] ==> records[0] in input.records;
    }
    var spki := SpkiFor(input.records, input.certificate);
    assert spki == SpkiFor(records, input.certificate);
    if spki.Ok? {
      FirstAuthorizingIff(h, input.records, input.certificate, spki.value, input.webpki);
      FirstAuthorizingIff(h, records, input.certificate, spki.value, input.webpki);
    }
  }

  lemma {:induction false} FirstAuthorizingIs(h: Hashes, records: seq<TlsaRecord>, certificate: seq<Byte>,
                                              spki: seq<Byte>, webpki: WebPki) returns (r: TlsaRecord)
    requires FirstAuthorizing(h, records, certificate, spki, webpki).Some?
    ensures r in records && Authorizes(h, r, certificate, spki, webpki)
    ensures FirstAuthorizing(h, records, certificate, spki, webpki) == Some(r.usage)
    decreases |records|
  {
    if Authorizes(h, records[0], certificate, spki, webpki) {
      r := records[0];
    } else {
      r := FirstAuthorizingIs(h, records[1..], certificate, spki, webpki);
    }
  }

  /** Some two authorizing records differ in usage. */
  ghost predicate UsagesDiffer(h: Hashes, input: Input, spki: seq<Byte>) {
    exists a, b ::
      && a in input.records && b in input.records && a.usage != b.usage
      && Authorizes(h, a, input.certificate, spki, input.webpki)
      && Authorizes(h, b, input.certificate, spki, input.webpki)
  }

  /** What a caller can tell from the record set: nothing authorizes, or everything that does has one usage. */
  ghost predicate OrderCannotShow(h: Hashes, input: Input) {
    var spki := SpkiFor(input.records, input.certificate);
    !input.dnssecSecure || spki.Err? || !UsagesDiffer(h, input, spki.value)
  }

  predicate SameResult(h: Hashes, input: Input, records: seq<TlsaRecord>) {
    CertificatePolicy(h, input.(records := records)) == CertificatePolicy(h, input)
  }

  ghost predicate OrderFree(h: Hashes, input: Input) {
    forall records {:trigger SameResult(h, input, records)} | SameRecords(input.records, records) ::
      SameResult(h, input, records)
  }

  /** Putting an authorizing record first makes the policy report its usage. */
  lemma FirstIsReported(h: Hashes, input: Input, r: TlsaRecord)
    requires r in input.records && input.dnssecSecure && SpkiFor(input.records, input.certificate).Ok?
    requires Authorizes(h, r, input.certificate, SpkiFor(input.records, input.certificate).value, input.webpki)
    ensures SameRecords(input.records, [r] + input.records)
    ensures CertificatePolicy(h, input.(records := [r] + input.records)) == Ok(Matched(r.usage))
  {
    var records := [r] + input.records;
    assert SpkiFor(records, input.certificate) == SpkiFor(input.records, input.certificate);
    assert records[0] == r;
  }

  lemma SameUsageReported(h: Hashes, input: Input, records: seq<TlsaRecord>)
    requires OrderCannotShow(h, input) && SameRecords(input.records, records)
    ensures CertificatePolicy(h, input.(records := records)) == CertificatePolicy(h, input)
  {
    var other := input.(records := records);
    CertificatePolicyDependsOnSet(h, input, records);
    var spki := SpkiFor(input.records, input.certificate);
    assert spki == SpkiFor(records, input.certificate);
    if input.dnssecSecure && spki.Ok? {
      var (u, w) := (FirstAuthorizing(h, input.records, input.certificate, spki.value, input.webpki),
                     FirstAuthorizing(h, records, input.certificate, spki.value, input.webpki));
      if u.Some? && w.Some? {
        var a := FirstAuthorizingIs(h, input.records, input.certificate, spki.value, input.webpki);
        var b := FirstAuthorizingIs(h, records, input.certificate, spki.value, input.webpki);
        assert a.usage == b.usage;
      }
    }
  }

  /** The certificate-only result is the same for every list of these records exactly when their order cannot show. */
  lemma CertificateOrderFreeIff(h: Hashes, input: Input)
    ensures OrderFree(h, input) <==> OrderCannotShow(h, input)
  {
    if OrderCannotShow(h, input) {
      forall records | SameRecords(input.records, records)
        ensures SameResult(h, input, records)
      {
        SameUsageReported(h, input, records);
      }
    } else {
      OrderShowsWhen(h, input);
    }
  }

  lemma OrderShowsWhen(h: Hashes, input: Input)
    requires !OrderCannotShow(h, input)
    ensures !OrderFree(h, input)
  {
    var spki := SpkiFor(input.records, input.certificate).value;
    var a, b :|
      && a in input.records && b in input.records && a.usage != b.usage
      && Authorizes(h, a, input.certificate, spki, input.webpki)
      && Authorizes(h, b, input.certificate, spki, input.webpki);
    FirstIsReported(h, input, a);
    FirstIsReported(h, input, b);
    assert !(SameResult(h, input, [a] + input.records) && SameResult(h, input, [b] + input.records));
  }

  /** Two records that both match, in either order. */
  lemma OrderShows(h: Hashes, input: Input, a: TlsaRecord, b: TlsaRecord)
    requires a == TlsaRecord(DaneEe, FullCertificate, Exact, [1])
    requires b == TlsaRecord(PkixEe, FullCertificate, Exact, [1])
    requires input == Input(HnsStrict, true, [a, b], [1], Valid)
    ensures CertificatePolicy(h, input) == Ok(Matched(DaneEe))
    ensures CertificatePolicy(h, input.(records := [b, a])) == Ok(Matched(PkixEe))
  {
    assert [a, b][0] == a && [b, a][0] == b;
  }

  // ---- The two policies agree ----

  predicate Accepts(r: Result<Decision, DaneError>) {
    r.Ok? && !r.value.Failed?
  }

  ghost predicate WithinLimits(records: seq<TlsaRecord>) {
    |records| <= MAX_INPUT_RECORDS && |Elements(records)| <= MAX_DISTINCT_RECORDS
  }

  lemma TooManyIff(h: Hashes, input: Input, v: PathVerifier)
    ensures PathPolicy(h, input, v) == Err(TooManyTlsaRecords)
            <==> input.records != [] && input.dnssecSecure && !WithinLimits(input.records)
  {
    DistinctOf(input.records);
    SpkiErrors(Distinct(input.records), input.certificate);
  }

  lemma SpkiErrors(records: seq<TlsaRecord>, certificate: seq<Byte>)
    ensures SpkiFor(records, certificate) != Err(TooManyTlsaRecords)
  {
    if exists r <- records :: r.NeedsSpki() {
      ExtractErrorKinds(certificate);
    }
  }

  /** Some end-entity record authorizes the certificate. */
  ghost predicate EeAuthorized(h: Hashes, records: seq<TlsaRecord>, certificate: seq<Byte>, webpki: WebPki) {
    var spki := SpkiFor(records, certificate);
    spki.Ok? && exists r :: r in records && Authorizes(h, r, certificate, spki.value, webpki)
  }

  /** The certificate-only policy accepts records exactly when they are secure and one of them authorizes. */
  lemma CertificateAcceptsIff(h: Hashes, input: Input)
    requires input.records != []
    ensures Accepts(CertificatePolicy(h, input))
            <==> input.dnssecSecure && EeAuthorized(h, input.records, input.certificate, input.webpki)
  {
    var spki := SpkiFor(input.records, input.certificate);
    if spki.Ok? {
      FirstAuthorizingIff(h, input.records, input.certificate, spki.value, input.webpki);
    }
  }

  ghost predicate TaAuthorized(records: seq<TlsaRecord>, webpki: WebPki, v: PathVerifier) {
    var (daneTa, pkixTa) := (WithUsage(records, DaneTa), WithUsage(records, PkixTa));
    || (daneTa != [] && v.matchesDaneTa(daneTa))
    || (pkixTa != [] && webpki.Valid? && v.matchesPkixTa(pkixTa))
  }

  lemma WeighAcceptsIff(h: Hashes, records: seq<TlsaRecord>, certificate: seq<Byte>, webpki: WebPki, v: PathVerifier)
    ensures Accepts(Weigh(h, records, certificate, webpki, v))
            <==> SpkiFor(records, certificate).Ok?
                 && (EeAuthorized(h, records, certificate, webpki) || TaAuthorized(records, webpki, v))
  {
    var spki := SpkiFor(records, certificate);
    if spki.Ok? {
      assert (exists r :: r in records && Authorizes(h, r, certificate, spki.value, webpki))
        <==> AnyMatch(h, records, DaneEe, certificate, spki.value)
             || (webpki.Valid? && AnyMatch(h, records, PkixEe, certificate, spki.value)) by {
        if r :| r in records && r.usage == DaneEe && Matches(h, r, certificate, spki.value) {
          assert Authorizes(h, r, certificate, spki.value, webpki);
        } else if r :| r in records && r.usage == PkixEe && Matches(h, r, certificate, spki.value) {
          assert webpki.Valid? ==> Authorizes(h, r, certificate, spki.value, webpki);
        }
      }
    }
  }

  lemma SameEeAuthorized(h: Hashes, a: seq<TlsaRecord>, b: seq<TlsaRecord>, certificate: seq<Byte>, webpki: WebPki)
    requires SameRecords(a, b)
    ensures SpkiFor(a, certificate) == SpkiFor(b, certificate)
    ensures EeAuthorized(h, a, certificate, webpki) <==> EeAuthorized(h, b, certificate, webpki)
  {
    assert SpkiFor(a, certificate) == SpkiFor(b, certificate);
    var spki := SpkiFor(a, certificate);
    if spki.Ok? {
      assert (exists r :: r in a && Authorizes(h, r, certificate, spki.value, webpki))
        <==> exists r :: r in b && Authorizes(h, r, certificate, spki.value, webpki);
    }
  }

  /** Acceptance with a verifier: by an end-entity record, or by the verifier on the trust-anchor records. */
  lemma PathAcceptsIff(h: Hashes, input: Input, v: PathVerifier)
    requires input.records != []
    ensures Accepts(PathPolicy(h, input, v))
            <==> && input.dnssecSecure && WithinLimits(input.records)
                 && SpkiFor(input.records, input.certificate).Ok?
                 && (|| EeAuthorized(h, input.records, input.certificate, input.webpki)
                     || TaAuthorized(Distinct(input.records), input.webpki, v))
  {
    var distinct := Distinct(input.records);
    DistinctOf(input.records);
    SameElements(distinct, input.records);
    SameEeAuthorized(h, distinct, input.records, input.certificate, input.webpki);
    WeighAcceptsIff(h, distinct, input.certificate, input.webpki, v);
  }

  /** A record of this usage matches the certificate. */
  ghost predicate UsageMatches(h: Hashes, records: seq<TlsaRecord>, usage: Usage, certificate: seq<Byte>,
                               spki: seq<Byte>)
  {
    exists r :: r in records && r.usage == usage && Matches(h, r, certificate, spki)
  }

  ghost predicate UsagePresent(records: seq<TlsaRecord>, usage: Usage) {
    exists r :: r in records && r.usage == usage
  }

  ghost predicate DaneTaAccepted(records: seq<TlsaRecord>, v: PathVerifier) {
    WithUsage(records, DaneTa) != [] && v.matchesDaneTa(WithUsage(records, DaneTa))
  }

  lemma EeAuthorizedIff(h: Hashes, records: seq<TlsaRecord>, certificate: seq<Byte>, webpki: WebPki, spki: seq<Byte>)
    requires SpkiFor(records, certificate) == Ok(spki)
    ensures EeAuthorized(h, records, certificate, webpki) <==>
            || UsageMatches(h, records, DaneEe, certificate, spki)
            || (webpki.Valid? && UsageMatches(h, records, PkixEe, certificate, spki))
  {
    if r :| r in records && r.usage == DaneEe && Matches(h, r, certificate, spki) {
      assert Authorizes(h, r, certificate, spki, webpki);
    }
    if r :| r in records && r.usage == PkixEe && Matches(h, r, certificate, spki) {
      assert webpki.Valid? ==> Authorizes(h, r, certificate, spki, webpki);
    }
  }

  lemma WeighReports(h: Hashes, records: seq<TlsaRecord>, certificate: seq<Byte>, webpki: WebPki, v: PathVerifier,
                     spki: seq<Byte>)
    requires SpkiFor(records, certificate) == Ok(spki)
    ensures var out := Weigh(h, records, certificate, webpki, v);
            && (out == Ok(Matched(DaneEe)) <==> UsageMatches(h, records, DaneEe, certificate, spki))
            && (out == Ok(Matched(PkixEe)) <==>
                && !UsageMatches(h, records, DaneEe, certificate, spki)
                && webpki.Valid? && UsageMatches(h, records, PkixEe, certificate, spki))
            && (out == Ok(Matched(DaneTa)) <==>
                !EeAuthorized(h, records, certificate, webpki) && DaneTaAccepted(records, v))
            && (out == Ok(Matched(PkixTa)) <==>
                && !EeAuthorized(h, records, certificate, webpki) && !DaneTaAccepted(records, v)
                && TaAuthorized(records, webpki, v))
            && (out == Err(WebPkiFailed) <==>
                && !Accepts(out) && !webpki.Valid?
                && (UsagePresent(records, PkixTa) || UsageMatches(h, records, PkixEe, certificate, spki)))
  {
    WeighAcceptsIff(h, records, certificate, webpki, v);
    EeAuthorizedIff(h, records, certificate, webpki, spki);
    WithUsageOf(records, PkixTa);
    assert WithUsage(records, PkixTa) != [] ==> WithUsage(records, PkixTa)[0] in records;
  }

  /**
   * What is reported, in terms of the record set: a matching DANE-EE record always wins, a PKIX-EE match comes next,
   * trust anchors only through the verifier, and the WebPKI error only when WebPKI stood in the way of a PKIX record.
   */
  lemma PathReports(h: Hashes, input: Input, v: PathVerifier, spki: seq<Byte>)
    requires input.records != [] && input.dnssecSecure && WithinLimits(input.records)
    requires SpkiFor(input.records, input.certificate) == Ok(spki)
    ensures var out := PathPolicy(h, input, v);
            var (records, certificate) := (input.records, input.certificate);
            && (out == Ok(Matched(DaneEe)) <==> UsageMatches(h, records, DaneEe, certificate, spki))
            && (out == Ok(Matched(PkixEe)) <==>
                && !UsageMatches(h, records, DaneEe, certificate, spki)
                && input.webpki.Valid? && UsageMatches(h, records, PkixEe, certificate, spki))
            && (out == Ok(Matched(DaneTa)) <==>
                !EeAuthorized(h, records, certificate, input.webpki) && DaneTaAccepted(Distinct(records), v))
            && (out == Ok(Matched(PkixTa)) <==>
                && !EeAuthorized(h, records, certificate, input.webpki) && !DaneTaAccepted(Distinct(records), v)
                && TaAuthorized(Distinct(records), input.webpki, v))
            && (out == Err(WebPkiFailed) <==>
                && !Accepts(out) && !input.webpki.Valid?
                && (UsagePresent(records, PkixTa) || UsageMatches(h, records, PkixEe, certificate, spki)))
  {
    var distinct := Distinct(input.records);
    DistinctOf(input.records);
    SameElements(distinct, input.records);
    SameEeAuthorized(h, distinct, input.records, input.certificate, input.webpki);
    WeighReports(h, distinct, input.certificate, input.webpki, v, spki);
  }

  /** Within the limits, whatever the certificate-only policy accepts is accepted with any verifier. */
  lemma PathAcceptsWhatCertificateDoes(h: Hashes, input: Input, v: PathVerifier)
    requires Accepts(CertificatePolicy(h, input))
    ensures Accepts(PathPolicy(h, input, v)) <==> WithinLimits(input.records)
  {
    if input.records != [] {
      CertificateAcceptsIff(h, input);
      PathAcceptsIff(h, input, v);
    } else {
      assert Elements(input.records) == {};
    }
  }

  ghost predicate Rejecting(v: PathVerifier) {
    forall records :: !v.matchesPkixTa(records) && !v.matchesDaneTa(records)
  }

  /** With a verifier that rejects everything the two policies accept the same inputs. */
  lemma RejectingVerifierAgrees(h: Hashes, input: Input, v: PathVerifier)
    requires Rejecting(v) && WithinLimits(input.records)
    ensures Accepts(PathPolicy(h, input, v)) <==> Accepts(CertificatePolicy(h, input))
  {
    if input.records != [] {
      CertificateAcceptsIff(h, input);
      PathAcceptsIff(h, input, v);
    }
  }
}
