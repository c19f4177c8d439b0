/** The DER reader, the DER printer it inverts, and the extraction of the public key info of a certificate. */
module Der {
  import opened Wrappers
  import opened Pow

  datatype DaneError =
    | MalformedCertificate
    | MissingSubjectPublicKeyInfo
    | InsecureTlsa
    | MissingRequiredTlsa
    | WebPkiFailed
    | PathValidationRequired
    | TooManyTlsaRecords

  const TAG_SEQUENCE: Byte := 0x30
  const TAG_EXPLICIT_VERSION: Byte := 0xa0

  // ---- Printing ----

  /** Big-endian bytes without leading zeros. */
  function MinimalBytes(n: nat): seq<Byte> {
    if n == 0 then [] else MinimalBytes(n / 256) + [n % 256]
  }

  lemma {:induction false} MinimalBytesOf(n: nat)
    ensures BigEndian(MinimalBytes(n)) == n
    ensures n > 0 ==> MinimalBytes(n) != [] && MinimalBytes(n)[0] != 0
  {
    if n > 0 {
      MinimalBytesOf(n / 256);
      var s := MinimalBytes(n);
      assert s[..|s| - 1] == MinimalBytes(n / 256);
    }
  }

  lemma {:induction false} BigEndianOf(s: seq<Byte>)
    requires s == [] || s[0] != 0
    ensures MinimalBytes(BigEndian(s)) == s && (s != [] ==> BigEndian(s) > 0)
  {
    if s != [] {
      var (init, last) := (s[..|s| - 1], s[|s| - 1]);
      BigEndianOf(init);
      assert BigEndian(s) / 256 == BigEndian(init) && BigEndian(s) % 256 == last;
      assert s == init + [last];
    }
  }

  /** Lengths of a 64-bit machine need at most eight bytes. */
  lemma MinimalBytesShort(n: U64)
    ensures |MinimalBytes(n)| <= 8
  {
    MinimalBytesWithin(n, 8, U64_MAX + 1);
  }

  lemma {:induction false} MinimalBytesWithin(n: nat, k: nat, bound: nat)
    requires n < bound && bound <= Pow256(k)
    ensures |MinimalBytes(n)| <= k
    decreases k
  {
    if n > 0 {
      MinimalBytesWithin(n / 256, k - 1, Pow256(k - 1));
    }
  }

  function LengthBytes(n: U64): seq<Byte> {
    if n < 128 then [n]
    else
      MinimalBytesShort(n);
      [128 + |MinimalBytes(n)|] + MinimalBytes(n)
  }

  type Sized = s: seq<Byte> | |s| <= U64_MAX

  function Print(tag: Byte, value: Sized): seq<Byte> {
    [tag] + LengthBytes(|value|) + value
  }

  // ---- Reading ----

  datatype Element = Element(tag: Byte, start: nat, valueStart: nat, end: nat)

  datatype Length = Length(length: nat, next: nat)

  function ReadLength(data: seq<Byte>, cursor: nat, limit: nat): (r: Result<Length, DaneError>)
    requires cursor < limit <= |data|
    ensures r.Ok? ==> cursor < r.value.next <= limit
  {
    var first := data[cursor];
    if first < 128 then Ok(Length(first, cursor + 1))
    else
      var octets := first - 128;
      if octets == 0 || octets > 8 || cursor + 1 + octets > limit || data[cursor + 1] == 0
      then Err(MalformedCertificate)
      else
        var length := BigEndian(data[cursor + 1..cursor + 1 + octets]);
        if length < 128 then Err(MalformedCertificate) else Ok(Length(length, cursor + 1 + octets))
  }

  function Read(data: seq<Byte>, cursor: nat, limit: nat): (r: Result<Element, DaneError>)
    requires limit <= |data|
    ensures r.Ok? ==> r.value.start == cursor < r.value.valueStart <= r.value.end <= limit
  {
    if cursor + 2 > limit then Err(MalformedCertificate)
    else
      var length :- ReadLength(data, cursor + 1, limit);
      if length.next + length.length > limit then Err(MalformedCertificate)
      else Ok(Element(data[cursor], cursor, length.next, length.next + length.length))
  }

  method ReadDerLength(data: seq<Byte>, start: nat, limit: nat) returns (r: Result<nat, DaneError>, cursor: nat)
    requires start < limit <= |data|
    ensures match ReadLength(data, start, limit)
            case Ok(length) => r == Ok(length.length) && cursor == length.next
            case Err(e) => r == Err(e)
  {
    var first := data[start];
    cursor := start + 1;
    if first < 128 {
      return Ok(first), cursor;
    }
    var octets := first - 128;
    if octets == 0 || octets > 8 || cursor + octets > limit || data[cursor] == 0 {
      return Err(MalformedCertificate), cursor;
    }
    var length: nat := 0;
    for i := 0 to octets
      invariant cursor == start + 1 + i
      invariant length == BigEndian(data[start + 1..start + 1 + i])
      invariant length < Pow256(i)
    {
      ghost var read := data[start + 1..start + 2 + i];
      assert read[..i] == data[start + 1..start + 1 + i];
      length := length * 256 + data[cursor];
      cursor := cursor + 1;
    }
    if length < 128 {
      return Err(MalformedCertificate), cursor;
    }
    return Ok(length), cursor;
  }

  method ReadDerElement(data: seq<Byte>, start: nat, limit: nat) returns (r: Result<Element, DaneError>, cursor: nat)
    requires limit <= |data|
    ensures r == Read(data, start, limit)
    ensures r.Ok? ==> cursor == r.value.end
  {
    cursor := start;
    if start + 2 > limit {
      return Err(MalformedCertificate), cursor;
    }
    var length;
    length, cursor := ReadDerLength(data, start + 1, limit);
    match length {
      case Err(e) => return Err(e), cursor;
      case Ok(n) =>
        var valueStart := cursor;
        if valueStart + n > limit {
          return Err(MalformedCertificate), cursor;
        }
        cursor := valueStart + n;
        return Ok(Element(data[start], start, valueStart, cursor)), cursor;
    }
  }

  // ---- Reader and printer are inverse ----

  /** `s` stands in `data` at `cursor`. */
  predicate At(data: seq<Byte>, cursor: nat, s: seq<Byte>) {
    cursor + |s| <= |data| && data[cursor..cursor + |s|] == s
  }

  lemma AtParts(data: seq<Byte>, cursor: nat, a: seq<Byte>, b: seq<Byte>)
    requires At(data, cursor, a + b)
    ensures At(data, cursor, a) && At(data, cursor + |a|, b)
  {
    var all := data[cursor..cursor + |a + b|];
    assert data[cursor..cursor + |a|] == all[..|a|] == a;
    assert data[cursor + |a|..cursor + |a| + |b|] == all[|a|..] == b;
  }

  lemma AtFirst(data: seq<Byte>, cursor: nat, s: seq<Byte>)
    requires At(data, cursor, s) && s != []
    ensures data[cursor] == s[0]
  {
    assert data[cursor..cursor + |s|][0] == data[cursor];
  }

  lemma LengthReadsBack(data: seq<Byte>, cursor: nat, limit: nat, n: U64, printed: seq<Byte>, next: nat)
    requires printed == LengthBytes(n) && At(data, cursor, printed) && next == cursor + |printed| <= limit <= |data|
    ensures ReadLength(data, cursor, limit) == Ok(Length(n, next))
  {
    AtFirst(data, cursor, printed);
    if n >= 128 {
      var bytes := MinimalBytes(n);
      MinimalBytesOf(n);
      MinimalBytesShort(n);
      AtParts(data, cursor, [128 + |bytes|], bytes);
      AtFirst(data, cursor + 1, bytes);
    }
  }

  lemma LengthPrintsBack(data: seq<Byte>, cursor: nat, limit: nat)
    requires cursor < limit <= |data| && ReadLength(data, cursor, limit).Ok?
    requires ReadLength(data, cursor, limit).value.length <= U64_MAX
    ensures var r := ReadLength(data, cursor, limit).value; data[cursor..r.next] == LengthBytes(r.length)
  {
    var r := ReadLength(data, cursor, limit).value;
    if data[cursor] >= 128 {
      BigEndianOf(data[cursor + 1..r.next]);
      assert data[cursor..r.next] == [data[cursor]] + data[cursor + 1..r.next];
    }
  }

  lemma PrintParts(data: seq<Byte>, cursor: nat, tag: Byte, value: Sized, length: seq<Byte>)
    requires At(data, cursor, Print(tag, value)) && length == LengthBytes(|value|)
    ensures |Print(tag, value)| == 1 + |length| + |value| && length != []
    ensures data[cursor] == tag && At(data, cursor + 1, length) && At(data, cursor + 1 + |length|, value)
  {
    assert Print(tag, value) == [tag] + (length + value);
    AtParts(data, cursor, [tag], length + value);
    AtParts(data, cursor + 1, length, value);
    AtFirst(data, cursor, [tag]);
  }

  lemma ReadParts(data: seq<Byte>, cursor: nat, limit: nat, value: Sized, length: seq<Byte>, valueStart: nat)
    returns (e: Element)
    requires length == LengthBytes(|value|) && length != [] && At(data, cursor + 1, length)
    requires valueStart == cursor + 1 + |length|
    requires At(data, valueStart, value) && valueStart + |value| <= limit <= |data|
    ensures Read(data, cursor, limit) == Ok(e)
    ensures e == Element(data[cursor], cursor, valueStart, valueStart + |value|) && data[e.valueStart..e.end] == value
  {
    LengthReadsBack(data, cursor + 1, limit, |value|, length, valueStart);
    e := Element(data[cursor], cursor, valueStart, valueStart + |value|);
  }

  /** Reading what the printer wrote gives back the tag and the value, wherever it stands. */
  lemma ReadInvertsPrint(data: seq<Byte>, cursor: nat, limit: nat, tag: Byte, value: Sized) returns (e: Element)
    requires At(data, cursor, Print(tag, value)) && cursor + |Print(tag, value)| <= limit <= |data|
    ensures Read(data, cursor, limit) == Ok(e)
    ensures e.tag == tag && e.start == cursor && e.end == cursor + |Print(tag, value)|
    ensures data[e.valueStart..e.end] == value
  {
    var length := LengthBytes(|value|);
    PrintParts(data, cursor, tag, value, length);
    e := ReadParts(data, cursor, limit, value, length, cursor + 1 + |length|);
  }

  /** Whatever the reader accepts is what the printer writes: lengths are always minimal. */
  lemma PrintInvertsRead(data: seq<Byte>, cursor: nat, limit: nat)
    requires limit <= |data| <= U64_MAX && Read(data, cursor, limit).Ok?
    ensures var e := Read(data, cursor, limit).value;
            data[cursor..e.end] == Print(e.tag, data[e.valueStart..e.end])
  {
    var e := Read(data, cursor, limit).value;
    LengthPrintsBack(data, cursor + 1, limit);
    assert data[cursor..e.end] == [data[cursor]] + data[cursor + 1..e.valueStart] + data[e.valueStart..e.end];
  }

  // ---- Certificates ----

  function Skip(data: seq<Byte>, cursor: nat, limit: nat, n: nat): (r: Result<nat, DaneError>)
    requires limit <= |data|
    ensures r.Ok? ==> cursor <= r.value && (n > 0 ==> r.value <= limit)
    decreases n
  {
    if n == 0 then Ok(cursor)
    else
      var e :- Read(data, cursor, limit);
      Skip(data, e.end, limit, n - 1)
  }

  /** Whether an explicit version comes first. */
  function Versions(data: seq<Byte>, start: nat, end: nat): nat
    requires end <= |data|
  {
    if start < end && data[start] == TAG_EXPLICIT_VERSION then 1 else 0
  }

  /** The key info expected at the cursor. */
  function KeyAt(data: seq<Byte>, cursor: nat, end: nat): Result<seq<Byte>, DaneError>
    requires end <= |data|
  {
    if cursor >= end then Err(MissingSubjectPublicKeyInfo)
    else
      var spki :- Read(data, cursor, end);
      if spki.tag != TAG_SEQUENCE then Err(MissingSubjectPublicKeyInfo) else Ok(data[spki.start..spki.end])
  }

  /** The key info behind the fields that precede it. */
  function KeyInfo(data: seq<Byte>, start: nat, end: nat): Result<seq<Byte>, DaneError>
    requires end <= |data|
  {
    var cursor :- Skip(data, start, end, Versions(data, start, end) + 5);
    KeyAt(data, cursor, end)
  }

  /** The key info of the signed part that starts here; it must not reach beyond the certificate. */
  function SignedPartKey(data: seq<Byte>, start: nat, certificateEnd: nat): Result<seq<Byte>, DaneError> {
    var tbs :- Read(data, start, |data|);
    if tbs.tag != TAG_SEQUENCE || tbs.end > certificateEnd then Err(MalformedCertificate)
    else KeyInfo(data, tbs.valueStart, tbs.end)
  }

  function ExtractSpki(data: seq<Byte>): Result<seq<Byte>, DaneError> {
    var certificate :- Read(data, 0, |data|);
    if certificate.tag != TAG_SEQUENCE || certificate.end != |data| then Err(MalformedCertificate)
    else SignedPartKey(data, certificate.valueStart, certificate.end)
  }

  method SkipDerElements(data: seq<Byte>, start: nat, limit: nat, n: nat) returns (r: Result<nat, DaneError>)
    requires limit <= |data|
    ensures r == Skip(data, start, limit, n)
  {
    var cursor := start;
    for i := 0 to n
      invariant 0 <= cursor
      invariant Skip(data, start, limit, n) == Skip(data, cursor, limit, n - i)
    {
      var element, next := ReadDerElement(data, cursor, limit);
      var _ :- element;
      cursor := next;
    }
    return Ok(cursor);
  }

  method ReadKeyInfo(data: seq<Byte>, start: nat, end: nat) returns (r: Result<seq<Byte>, DaneError>)
    requires end <= |data|
    ensures r == KeyInfo(data, start, end)
  {
    var fields := 5;
    if start < end && data[start] == TAG_EXPLICIT_VERSION {
      fields := 6;
    }
    var skipped := SkipDerElements(data, start, end, fields);
    var cursor :- skipped;
    if cursor >= end {
      return Err(MissingSubjectPublicKeyInfo);
    }
    var element, _ := ReadDerElement(data, cursor, end);
    var spki :- element;
    if spki.tag != TAG_SEQUENCE {
      return Err(MissingSubjectPublicKeyInfo);
    }
    return Ok(data[spki.start..spki.end]);
  }

  method ExtractSpkiDer(data: seq<Byte>) returns (r: Result<seq<Byte>, DaneError>)
    ensures r == ExtractSpki(data)
  {
    var element, cursor := ReadDerElement(data, 0, |data|);
    var certificate :- element;
    if certificate.tag != TAG_SEQUENCE || cursor != |data| {
      return Err(MalformedCertificate);
    }
    element, cursor := ReadDerElement(data, certificate.valueStart, |data|);
    var tbs :- element;
    if tbs.tag != TAG_SEQUENCE || tbs.end > certificate.end {
      return Err(MalformedCertificate);
    }
    r := ReadKeyInfo(data, tbs.valueStart, tbs.end);
  }

  datatype Field = Field(tag: Byte, value: Sized)

  function PrintAll(fields: seq<Field>): seq<Byte> {
    if fields == [] then [] else Print(fields[0].tag, fields[0].value) + PrintAll(fields[1..])
  }

  /** The fields before the key info: five of them, after a version if there is one. */
  predicate Preamble(fields: seq<Field>) {
    || (|fields| == 5 && fields[0].tag != TAG_EXPLICIT_VERSION)
    || (|fields| == 6 && fields[0].tag == TAG_EXPLICIT_VERSION)
  }

  /** The signed part: fields, key info and whatever follows. */
  predicate IsSignedPart(tbs: seq<Byte>, fields: seq<Field>, key: seq<Byte>, tail: seq<Byte>) {
    Preamble(fields) && tbs == PrintAll(fields) + (key + tail)
  }

  predicate IsCertificate(data: seq<Byte>, fields: seq<Field>, spki: Sized, tbs: Sized, body: Sized, tail: seq<Byte>,
                          rest: seq<Byte>)
  {
    && IsSignedPart(tbs, fields, Print(TAG_SEQUENCE, spki), tail)
    && body == Print(TAG_SEQUENCE, tbs) + rest
    && data == Print(TAG_SEQUENCE, body)
  }

  lemma PrintAllCons(fields: seq<Field>) returns (first: seq<Byte>, rest: seq<Byte>)
    requires fields != []
    ensures first == Print(fields[0].tag, fields[0].value) && rest == PrintAll(fields[1..])
    ensures PrintAll(fields) == first + rest
  {
    first, rest := Print(fields[0].tag, fields[0].value), PrintAll(fields[1..]);
  }

  lemma SkipsOne(data: seq<Byte>, cursor: nat, limit: nat, n: nat, field: Field, printed: seq<Byte>, next: nat)
    requires printed == Print(field.tag, field.value) && At(data, cursor, printed)
    requires next == cursor + |printed| <= limit <= |data| && n > 0
    ensures Skip(data, cursor, limit, n) == Skip(data, next, limit, n - 1)
  {
    var e := ReadInvertsPrint(data, cursor, limit, field.tag, field.value);
  }

  lemma {:induction false} SkipsPrinted(data: seq<Byte>, cursor: nat, limit: nat, fields: seq<Field>, n: nat, end: nat)
    requires At(data, cursor, PrintAll(fields)) && n == |fields|
    requires end == cursor + |PrintAll(fields)| <= limit <= |data|
    ensures Skip(data, cursor, limit, n) == Ok(end)
    decreases n
  {
    if n > 0 {
      var first, rest := PrintAllCons(fields);
      var next := cursor + |first|;
      AtParts(data, cursor, first, rest);
      SkipsOne(data, cursor, limit, n, fields[0], first, next);
      SkipsPrinted(data, next, limit, fields[1..], n - 1, end);
    }
  }

  lemma {:induction false} SkippedWasPrinted(data: seq<Byte>, cursor: nat, limit: nat, n: nat)
    returns (fields: seq<Field>)
    requires limit <= |data| <= U64_MAX && Skip(data, cursor, limit, n).Ok? && cursor <= limit
    ensures |fields| == n && Skip(data, cursor, limit, n).value <= limit
    ensures data[cursor..Skip(data, cursor, limit, n).value] == PrintAll(fields)
    ensures n > 0 ==> cursor < limit && fields[0].tag == data[cursor]
    decreases n
  {
    if n == 0 {
      fields := [];
    } else {
      var next, field := FieldAt(data, cursor, limit, n);
      var rest := SkippedWasPrinted(data, next, limit, n - 1);
      fields := [field] + rest;
      PrintAllOf(field, rest);
      CutTwo(data, cursor, next, Skip(data, next, limit, n - 1).value);
    }
  }

  lemma FieldAt(data: seq<Byte>, cursor: nat, limit: nat, n: nat) returns (next: nat, field: Field)
    requires limit <= |data| <= U64_MAX && n > 0 && Skip(data, cursor, limit, n).Ok?
    ensures cursor < next <= limit && Skip(data, cursor, limit, n) == Skip(data, next, limit, n - 1)
    ensures data[cursor..next] == Print(field.tag, field.value) && field.tag == data[cursor]
  {
    var e := Read(data, cursor, limit).value;
    PrintInvertsRead(data, cursor, limit);
    next, field := e.end, Field(e.tag, data[e.valueStart..e.end]);
  }

  lemma PrintAllOf(field: Field, rest: seq<Field>)
    ensures PrintAll([field] + rest) == Print(field.tag, field.value) + PrintAll(rest)
  {
    assert ([field] + rest)[1..] == rest;
  }

  lemma CutTwo(data: seq<Byte>, a: nat, b: nat, c: nat)
    requires a <= b <= c <= |data|
    ensures data[a..c] == data[a..b] + data[b..c]
  {
  }

  lemma PrintStart(fields: seq<Field>)
    requires fields != []
    ensures PrintAll(fields) != [] && PrintAll(fields)[0] == fields[0].tag
  {
  }

  lemma KeyAtReads(data: seq<Byte>, cursor: nat, end: nat, spki: Sized)
    requires At(data, cursor, Print(TAG_SEQUENCE, spki)) && cursor + |Print(TAG_SEQUENCE, spki)| <= end <= |data|
    ensures KeyAt(data, cursor, end) == Ok(Print(TAG_SEQUENCE, spki))
  {
    var e := ReadInvertsPrint(data, cursor, end, TAG_SEQUENCE, spki);
  }

  lemma KeyAtPrints(data: seq<Byte>, cursor: nat, end: nat) returns (spki: Sized, key: seq<Byte>)
    requires end <= |data| <= U64_MAX && KeyAt(data, cursor, end).Ok?
    ensures KeyAt(data, cursor, end) == Ok(key) && key == Print(TAG_SEQUENCE, spki)
    ensures At(data, cursor, key) && cursor + |key| <= end
  {
    PrintInvertsRead(data, cursor, end);
    var e := Read(data, cursor, end).value;
    spki, key := data[e.valueStart..e.end], data[cursor..e.end];
  }

  lemma KeyInfoReads(data: seq<Byte>, start: nat, end: nat, fields: seq<Field>, printed: seq<Byte>, key: seq<Byte>)
    requires Preamble(fields) && printed == PrintAll(fields)
    requires At(data, start, printed) && start + |printed| <= end <= |data|
    requires KeyAt(data, start + |printed|, end) == Ok(key)
    ensures KeyInfo(data, start, end) == Ok(key)
  {
    PrintStart(fields);
    AtFirst(data, start, printed);
    SkipsPrinted(data, start, end, fields, |fields|, start + |printed|);
  }

  lemma KeyInfoPrints(data: seq<Byte>, start: nat, end: nat)
    returns (fields: seq<Field>, spki: Sized, key: seq<Byte>, tail: seq<Byte>)
    requires start <= end <= |data| <= U64_MAX && KeyInfo(data, start, end).Ok?
    ensures Preamble(fields) && key == Print(TAG_SEQUENCE, spki) && KeyInfo(data, start, end) == Ok(key)
    ensures data[start..end] == PrintAll(fields) + (key + tail)
  {
    var n := Versions(data, start, end) + 5;
    fields := SkippedWasPrinted(data, start, end, n);
    var cursor := Skip(data, start, end, n).value;
    spki, key := KeyAtPrints(data, cursor, end);
    tail := data[cursor + |key|..end];
    Cuts(data, start, cursor, cursor + |key|, end);
  }

  lemma Cuts(data: seq<Byte>, a: nat, b: nat, c: nat, d: nat)
    requires a <= b <= c <= d <= |data|
    ensures data[a..d] == data[a..b] + (data[b..c] + data[c..d])
  {
  }

  lemma CutRest(data: seq<Byte>, a: nat, b: nat)
    requires a <= b <= |data|
    ensures data[a..] == data[a..b] + data[b..]
  {
  }

  lemma SignedPartReads(data: seq<Byte>, start: nat, tbs: Sized, fields: seq<Field>, spki: Sized, tail: seq<Byte>)
    requires At(data, start, Print(TAG_SEQUENCE, tbs)) && IsSignedPart(tbs, fields, Print(TAG_SEQUENCE, spki), tail)
    ensures SignedPartKey(data, start, |data|) == Ok(Print(TAG_SEQUENCE, spki))
  {
    var e := ReadInvertsPrint(data, start, |data|, TAG_SEQUENCE, tbs);
    var (printed, key) := (PrintAll(fields), Print(TAG_SEQUENCE, spki));
    AtParts(data, e.valueStart, printed, key + tail);
    AtParts(data, e.valueStart + |printed|, key, tail);
    KeyAtReads(data, e.valueStart + |printed|, e.end, spki);
    KeyInfoReads(data, e.valueStart, e.end, fields, printed, key);
  }

  lemma SignedPartPrints(data: seq<Byte>, start: nat)
    returns (end: nat, tbs: Sized, fields: seq<Field>, spki: Sized, tail: seq<Byte>)
    requires |data| <= U64_MAX && SignedPartKey(data, start, |data|).Ok?
    ensures start <= end <= |data| && data[start..end] == Print(TAG_SEQUENCE, tbs)
    ensures IsSignedPart(tbs, fields, Print(TAG_SEQUENCE, spki), tail)
    ensures SignedPartKey(data, start, |data|) == Ok(Print(TAG_SEQUENCE, spki))
  {
    PrintInvertsRead(data, start, |data|);
    var e := Read(data, start, |data|).value;
    var key;
    fields, spki, key, tail := KeyInfoPrints(data, e.valueStart, e.end);
    end, tbs := e.end, data[e.valueStart..e.end];
  }

  lemma CertificateReads(data: seq<Byte>, body: Sized) returns (start: nat)
    requires data == Print(TAG_SEQUENCE, body)
    ensures At(data, start, body) && ExtractSpki(data) == SignedPartKey(data, start, |data|)
  {
    assert data[0..|data|] == data;
    var e := ReadInvertsPrint(data, 0, |data|, TAG_SEQUENCE, body);
    start := e.valueStart;
  }

  lemma CertificatePrints(data: seq<Byte>) returns (start: nat, body: Sized)
    requires |data| <= U64_MAX && ExtractSpki(data).Ok?
    ensures start <= |data| && body == data[start..] && data == Print(TAG_SEQUENCE, body)
    ensures ExtractSpki(data) == SignedPartKey(data, start, |data|)
  {
    assert data[0..|data|] == data;
    PrintInvertsRead(data, 0, |data|);
    start := Read(data, 0, |data|).value.valueStart;
    body := data[start..];
  }

  /** On every certificate made of such fields, with or without a version, the result is exactly the key info. */
  lemma ExtractsFromCertificate(data: seq<Byte>, fields: seq<Field>, spki: Sized, tbs: Sized, body: Sized,
                                tail: seq<Byte>, rest: seq<Byte>)
    requires IsCertificate(data, fields, spki, tbs, body, tail, rest)
    ensures ExtractSpki(data) == Ok(Print(TAG_SEQUENCE, spki))
  {
    var start := CertificateReads(data, body);
    AtParts(data, start, Print(TAG_SEQUENCE, tbs), rest);
    SignedPartReads(data, start, tbs, fields, spki, tail);
  }

  /** Conversely everything it extracts from is such a certificate, and what it returns is its key info. */
  lemma ExtractedFromCertificate(data: seq<Byte>)
    returns (fields: seq<Field>, spki: Sized, tbs: Sized, body: Sized, tail: seq<Byte>, rest: seq<Byte>)
    requires |data| <= U64_MAX && ExtractSpki(data).Ok?
    ensures IsCertificate(data, fields, spki, tbs, body, tail, rest)
    ensures ExtractSpki(data) == Ok(Print(TAG_SEQUENCE, spki))
  {
    var start, end;
    start, body := CertificatePrints(data);
    end, tbs, fields, spki, tail := SignedPartPrints(data, start);
    rest := data[end..];
    CutRest(data, start, end);
  }
}
