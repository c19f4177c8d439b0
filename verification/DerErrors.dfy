/** Why the key info of a certificate cannot be extracted: it is missing, or the certificate is malformed. */
module DerErrors {
  import opened Wrappers
  import opened Der

  /** What stands where the key info should: nothing, or an element that is no sequence. */
  ghost predicate NoKey(tail: seq<Byte>) {
    tail == [] || exists tag: Byte, value: Sized, more :: tag != 0x30 && tail == Print(tag, value) + more
  }

  /** A certificate whose signed part has the fields before the key info, but not the key info. */
  ghost predicate LacksKey(data: seq<Byte>, fields: seq<Field>, tail: seq<Byte>, tbs: Sized, body: Sized,
                           rest: seq<Byte>)
  {
    && (|| (|fields| == 5 && fields[0].tag != 0xa0)
        || (|fields| == 6 && fields[0].tag == 0xa0))
    && NoKey(tail) && tbs == PrintAll(fields) + tail
    && body == Print(0x30, tbs) + rest && data == Print(0x30, body)
  }

  lemma ReadErrors(data: seq<Byte>, cursor: nat, limit: nat)
    requires limit <= |data|
    ensures Read(data, cursor, limit).Err? ==> Read(data, cursor, limit) == Err(MalformedCertificate)
  {
  }

  lemma {:induction false} SkipErrors(data: seq<Byte>, cursor: nat, limit: nat, n: nat)
    requires limit <= |data|
    ensures Skip(data, cursor, limit, n).Err? ==> Skip(data, cursor, limit, n) == Err(MalformedCertificate)
    decreases n
  {
    if n > 0 {
      ReadErrors(data, cursor, limit);
      if Read(data, cursor, limit).Ok? {
        SkipErrors(data, Read(data, cursor, limit).value.end, limit, n - 1);
      }
    }
  }

  lemma NoKeyAt(data: seq<Byte>, cursor: nat, end: nat)
    requires cursor <= end <= |data| <= U64_MAX
    ensures KeyAt(data, cursor, end) == Err(MissingSubjectPublicKeyInfo) ==> NoKey(data[cursor..end])
  {
    ReadErrors(data, cursor, end);
    if cursor < end && Read(data, cursor, end).Ok? {
      var e := Read(data, cursor, end).value;
      PrintInvertsRead(data, cursor, end);
      CutTwo(data, cursor, e.end, end);
      assert data[cursor..end] == Print(e.tag, data[e.valueStart..e.end]) + data[e.end..end];
    }
  }

  lemma LackingFields(data: seq<Byte>, start: nat, end: nat) returns (fields: seq<Field>, tail: seq<Byte>)
    requires start <= end <= |data| <= U64_MAX
    requires KeyInfo(data, start, end) == Err(MissingSubjectPublicKeyInfo)
    ensures Preamble(fields) && NoKey(tail) && data[start..end] == PrintAll(fields) + tail
  {
    var n := Versions(data, start, end) + 5;
    SkipErrors(data, start, end, n);
    fields := SkippedWasPrinted(data, start, end, n);
    var cursor := Skip(data, start, end, n).value;
    NoKeyAt(data, cursor, end);
    tail := data[cursor..end];
    CutTwo(data, start, cursor, end);
  }

  lemma LackingPart(data: seq<Byte>, start: nat) returns (end: nat, tbs: Sized, fields: seq<Field>, tail: seq<Byte>)
    requires |data| <= U64_MAX && SignedPartKey(data, start, |data|) == Err(MissingSubjectPublicKeyInfo)
    ensures start <= end <= |data| && data[start..end] == Print(0x30, tbs)
    ensures Preamble(fields) && NoKey(tail) && tbs == PrintAll(fields) + tail
  {
    ReadErrors(data, start, |data|);
    PrintInvertsRead(data, start, |data|);
    var e := Read(data, start, |data|).value;
    fields, tail := LackingFields(data, e.valueStart, e.end);
    end, tbs := e.end, data[e.valueStart..e.end];
  }

  lemma LackingCertificate(data: seq<Byte>)
    returns (fields: seq<Field>, tail: seq<Byte>, tbs: Sized, body: Sized, rest: seq<Byte>)
    requires |data| <= U64_MAX && ExtractSpki(data) == Err(MissingSubjectPublicKeyInfo)
    ensures LacksKey(data, fields, tail, tbs, body, rest)
  {
    ReadErrors(data, 0, |data|);
    assert data[0..|data|] == data;
    PrintInvertsRead(data, 0, |data|);
    var start := Read(data, 0, |data|).value.valueStart;
    body := data[start..];
    var end;
    end, tbs, fields, tail := LackingPart(data, start);
    rest := data[end..];
    CutRest(data, start, end);
  }

  lemma EndMisses(data: seq<Byte>, start: nat, tbs: Sized, fields: seq<Field>)
    requires At(data, start, Print(0x30, tbs)) && Preamble(fields) && tbs == PrintAll(fields)
    ensures SignedPartKey(data, start, |data|) == Err(MissingSubjectPublicKeyInfo)
  {
    var s, end := PartStart(data, start, tbs);
    FieldsSkip(data, s, end, end, fields, tbs);
    SkippedKey(data, s, end, end);
  }

  lemma OtherMisses(data: seq<Byte>, start: nat, tbs: Sized, fields: seq<Field>, tag: Byte, value: Sized,
                    other: seq<Byte>, more: seq<Byte>)
    requires At(data, start, Print(0x30, tbs)) && Preamble(fields) && tbs == PrintAll(fields) + (other + more)
    requires other == Print(tag, value) && tag != 0x30
    ensures SignedPartKey(data, start, |data|) == Err(MissingSubjectPublicKeyInfo)
  {
    var s, end := PartStart(data, start, tbs);
    var cursor := OtherTail(data, s, end, PrintAll(fields), tag, value, other, more);
    FieldsSkip(data, s, cursor, end, fields, PrintAll(fields));
    SkippedKey(data, s, cursor, end);
  }

  lemma OtherTail(data: seq<Byte>, s: nat, end: nat, printed: seq<Byte>, tag: Byte, value: Sized, other: seq<Byte>,
                  more: seq<Byte>) returns (cursor: nat)
    requires At(data, s, printed + (other + more)) && end == s + |printed + (other + more)|
    requires other == Print(tag, value) && tag != 0x30
    ensures At(data, s, printed) && cursor == s + |printed| <= end
    ensures KeyAt(data, cursor, end) == Err(MissingSubjectPublicKeyInfo)
  {
    cursor := s + |printed|;
    AtParts(data, s, printed, other + more);
    AtParts(data, cursor, other, more);
    OtherAt(data, cursor, end, tag, value, other);
  }

  lemma OtherAt(data: seq<Byte>, cursor: nat, end: nat, tag: Byte, value: Sized, other: seq<Byte>)
    requires other == Print(tag, value) && tag != 0x30 && At(data, cursor, other) && cursor + |other| <= end <= |data|
    ensures KeyAt(data, cursor, end) == Err(MissingSubjectPublicKeyInfo)
  {
    var e := ReadInvertsPrint(data, cursor, end, tag, value);
  }

  ghost predicate Skipped(data: seq<Byte>, start: nat, cursor: nat, end: nat)
    requires end <= |data|
  {
    Skip(data, start, end, if start < end && data[start] == 0xa0 then 6 else 5) == Ok(cursor)
  }

  lemma FieldsSkip(data: seq<Byte>, start: nat, cursor: nat, end: nat, fields: seq<Field>, printed: seq<Byte>)
    requires Preamble(fields) && printed == PrintAll(fields)
    requires At(data, start, printed) && cursor == start + |printed| <= end <= |data|
    ensures Skipped(data, start, cursor, end)
  {
    PrintStart(fields);
    AtFirst(data, start, printed);
    SkipsPrinted(data, start, end, fields, |fields|, cursor);
  }

  lemma SkippedKey(data: seq<Byte>, start: nat, cursor: nat, end: nat)
    requires end <= |data| && Skipped(data, start, cursor, end)
    ensures KeyInfo(data, start, end) == KeyAt(data, cursor, end)
  {
  }

  lemma TailMisses(data: seq<Byte>, start: nat, tbs: Sized, fields: seq<Field>, tail: seq<Byte>)
    requires At(data, start, Print(0x30, tbs)) && Preamble(fields) && NoKey(tail) && tbs == PrintAll(fields) + tail
    ensures SignedPartKey(data, start, |data|) == Err(MissingSubjectPublicKeyInfo)
  {
    if tail == [] {
      assert tbs == PrintAll(fields);
      EndMisses(data, start, tbs, fields);
    } else {
      var tag: Byte, value: Sized, more :| tag != 0x30 && tail == Print(tag, value) + more;
      OtherMisses(data, start, tbs, fields, tag, value, Print(tag, value), more);
    }
  }

  lemma PartStart(data: seq<Byte>, start: nat, tbs: Sized) returns (s: nat, end: nat)
    requires At(data, start, Print(0x30, tbs))
    ensures At(data, s, tbs) && end == s + |tbs| && SignedPartKey(data, start, |data|) == KeyInfo(data, s, end)
  {
    var e := ReadInvertsPrint(data, start, |data|, 0x30, tbs);
    s, end := e.valueStart, e.end;
  }

  /** The key info is missing exactly in such certificates; every other failure is a malformed certificate. */
  lemma MissingKeyIff(data: seq<Byte>)
    requires |data| <= U64_MAX
    ensures ExtractSpki(data) == Err(MissingSubjectPublicKeyInfo) <==>
            exists fields, tail, tbs: Sized, body: Sized, rest :: LacksKey(data, fields, tail, tbs, body, rest)
    ensures ExtractSpki(data).Err? ==>
            ExtractSpki(data).error == MissingSubjectPublicKeyInfo || ExtractSpki(data).error == MalformedCertificate
  {
    if ExtractSpki(data) == Err(MissingSubjectPublicKeyInfo) {
      var fields, tail, tbs, body, rest := LackingCertificate(data);
    }
    if fields, tail, tbs: Sized, body: Sized, rest :| LacksKey(data, fields, tail, tbs, body, rest) {
      var start := CertificateReads(data, body);
      AtParts(data, start, Print(0x30, tbs), rest);
      TailMisses(data, start, tbs, fields, tail);
    }
    ExtractErrorKinds(data);
  }

  lemma ExtractErrorKinds(data: seq<Byte>)
    ensures ExtractSpki(data).Err? ==> ExtractSpki(data).error in {MalformedCertificate, MissingSubjectPublicKeyInfo}
  {
    var certificate := Read(data, 0, |data|);
    ReadErrors(data, 0, |data|);
    if certificate.Ok? {
      var tbs := Read(data, certificate.value.valueStart, |data|);
      if tbs.Ok? {
        var (start, end) := (tbs.value.valueStart, tbs.value.end);
        SkipErrors(data, start, end, Versions(data, start, end) + 5);
      }
    }
  }
}
