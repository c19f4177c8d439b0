/** The bounded walk along CNAME records to the TLSA records of a service. */
module TlsaWalk {
  import opened Wrappers
  import opened Dns
  import opened TlsaPolicy

  const MAX_CNAME_CHAIN_LEN: nat := 8
  const CLASS_IN: U16 := 1

  datatype WalkError = InvalidDnsResponse

  predicate Owned(r: ResourceRecord, owner: DnsName, rtype: U16) {
    r.name == owner && r.rtype == rtype
  }

  function RecordsAt(records: seq<ResourceRecord>, owner: DnsName, rtype: U16): seq<ResourceRecord> {
    if records == [] then []
    else (if Owned(records[0], owner, rtype) then [records[0]] else []) + RecordsAt(records[1..], owner, rtype)
  }

  function UsableAmong(records: seq<ResourceRecord>): seq<TlsaRecord> {
    if records == [] then []
    else
      var first := ParseUsable(records[0].rdata);
      (if first.Some? then [first.value] else []) + UsableAmong(records[1..])
  }

  // ---- The walk ----

  /** What one owner says: an answer, an alias, nothing, or something that invalidates the response. */
  datatype Hop = Answer(usable: seq<TlsaRecord>) | Alias(target: DnsName) | Nothing | Broken

  predicate ForeignClass(records: seq<ResourceRecord>, owner: DnsName) {
    exists r <- records :: r.name == owner && (r.rtype == TLSA || r.rtype == CNAME) && r.rclass != CLASS_IN
  }

  function AliasOf(parse: NameParser, cname: ResourceRecord): Hop {
    match parse(cname.rdata, 0)
    case None => Broken
    case Some(p) => if p.1 != |cname.rdata| then Broken else Alias(p.0)
  }

  function HopAt(parse: NameParser, records: seq<ResourceRecord>, owner: DnsName): Hop {
    var tlsa := RecordsAt(records, owner, TLSA);
    var cnames := RecordsAt(records, owner, CNAME);
    if ForeignClass(records, owner) then Broken
    else if tlsa != [] && cnames != [] then Broken
    else if tlsa != [] then
      var usable := UsableAmong(tlsa);
      if usable == [] then Broken else Answer(usable)
    else if |cnames| == 1 then AliasOf(parse, cnames[0])
    else if cnames == [] then Nothing
    else Broken
  }

  function Walk(parse: NameParser, records: seq<ResourceRecord>, owner: DnsName, seen: seq<DnsName>, budget: nat)
    : Result<seq<TlsaRecord>, WalkError>
    decreases budget
  {
    if budget == 0 || owner in seen then Err(InvalidDnsResponse)
    else
      match HopAt(parse, records, owner)
      case Answer(usable) => Ok(usable)
      case Alias(target) => Walk(parse, records, target, seen + [owner], budget - 1)
      case Nothing => if seen == [] then Ok([]) else Err(InvalidDnsResponse)
      case Broken => Err(InvalidDnsResponse)
  }

  function TlsaRecordsFor(parse: NameParser, records: seq<ResourceRecord>, service: Option<DnsName>)
    : Result<seq<TlsaRecord>, WalkError>
  {
    if service.None? then Err(InvalidDnsResponse)
    else Walk(parse, records, service.value, [], MAX_CNAME_CHAIN_LEN + 1)
  }

  method TlsaRecords(parse: NameParser, records: seq<ResourceRecord>, service: Option<DnsName>)
    returns (r: Result<seq<TlsaRecord>, WalkError>)
    ensures r == TlsaRecordsFor(parse, records, service)
  {
    if service.None? {
      return Err(InvalidDnsResponse);
    }
    var owner := service.value;
    var seen: seq<DnsName> := [];
    var followed := false;
    for depth := 0 to MAX_CNAME_CHAIN_LEN + 1
      invariant followed <==> seen != []
      invariant TlsaRecordsFor(parse, records, service)
             == Walk(parse, records, owner, seen, MAX_CNAME_CHAIN_LEN + 1 - depth)
    {
      if owner in seen {
        return Err(InvalidDnsResponse);
      }
      if ForeignClass(records, owner) {
        return Err(InvalidDnsResponse);
      }
      var tlsa := RecordsAt(records, owner, TLSA);
      var cnames := RecordsAt(records, owner, CNAME);
      if tlsa != [] && cnames != [] {
        return Err(InvalidDnsResponse);
      }
      if tlsa != [] {
        var usable := UsableAmong(tlsa);
        return if usable == [] then Err(InvalidDnsResponse) else Ok(usable);
      }
      if |cnames| != 1 {
        return if cnames == [] && !followed then Ok([]) else Err(InvalidDnsResponse);
      }
      var target := parse(cnames[0].rdata, 0);
      if target.None? || target.value.1 != |cnames[0].rdata| {
        return Err(InvalidDnsResponse);
      }
      seen := seen + [owner];
      owner := target.value.0;
      followed := true;
    }
    return Err(InvalidDnsResponse);
  }

  // ---- The relational specification ----

  /** No record of this type at the owner, whatever its class. */
  ghost predicate Absent(records: seq<ResourceRecord>, owner: DnsName, rtype: U16) {
    forall r <- records :: !Owned(r, owner, rtype)
  }

  /** Record `i` is the only one of its type at the owner. */
  ghost predicate Sole(records: seq<ResourceRecord>, owner: DnsName, rtype: U16, i: nat) {
    && i < |records| && Owned(records[i], owner, rtype)
    && forall j :: 0 <= j < |records| && Owned(records[j], owner, rtype) ==> j == i
  }

  /** The owner has a single CNAME, of class IN, whose data is exactly the target name, and no TLSA record. */
  ghost predicate CnameStep(parse: NameParser, records: seq<ResourceRecord>, owner: DnsName, target: DnsName) {
    && Absent(records, owner, TLSA)
    && exists i: nat ::
      Sole(records, owner, CNAME, i) && records[i].rclass == CLASS_IN
      && parse(records[i].rdata, 0) == Some((target, |records[i].rdata|))
  }

  /** The usable TLSA records at an owner, in the order of the response. */
  ghost function UsableAt(records: seq<ResourceRecord>, owner: DnsName): seq<TlsaRecord> {
    if records == [] then []
    else
      var first := ParseUsable(records[0].rdata);
      (if Owned(records[0], owner, TLSA) && first.Some? then [first.value] else []) + UsableAt(records[1..], owner)
  }

  /** The owner has no CNAME, only TLSA records of class IN, and these are its usable ones. */
  ghost predicate Terminal(records: seq<ResourceRecord>, owner: DnsName, usable: seq<TlsaRecord>) {
    && Absent(records, owner, CNAME)
    && (forall r <- records :: Owned(r, owner, TLSA) ==> r.rclass == CLASS_IN)
    && usable == UsableAt(records, owner) && usable != []
  }

  /** Owners linked by CNAME steps that end at one with usable TLSA records. */
  ghost predicate TerminalPath(parse: NameParser, records: seq<ResourceRecord>, path: seq<DnsName>,
                               usable: seq<TlsaRecord>)
  {
    && path != []
    && (forall i :: 0 <= i < |path| - 1 ==> CnameStep(parse, records, path[i], path[i + 1]))
    && Terminal(records, path[|path| - 1], usable)
  }

  // ---- One owner ----

  lemma {:induction false} RecordsAtEmptyIff(records: seq<ResourceRecord>, owner: DnsName, rtype: U16)
    ensures RecordsAt(records, owner, rtype) == [] <==> Absent(records, owner, rtype)
    decreases |records|
  {
    if records != [] {
      RecordsAtEmptyIff(records[1..], owner, rtype);
      assert forall r :: r in records <==> r == records[0] || r in records[1..];
    }
  }

  lemma {:induction false} RecordsAtSoleIff(records: seq<ResourceRecord>, owner: DnsName, rtype: U16, i: nat)
    requires i < |records|
    ensures Sole(records, owner, rtype, i) <==>
            Owned(records[i], owner, rtype) && |RecordsAt(records, owner, rtype)| == 1
    ensures Sole(records, owner, rtype, i) ==> RecordsAt(records, owner, rtype) == [records[i]]
    decreases |records|
  {
    var rest := records[1..];
    RecordsAtEmptyIff(rest, owner, rtype);
    assert forall j :: 1 <= j < |records| ==> records[j] == rest[j - 1];
    if i == 0 {
      assert Absent(rest, owner, rtype) <==> forall j :: 1 <= j < |records| ==> !Owned(records[j], owner, rtype);
    } else {
      RecordsAtSoleIff(rest, owner, rtype, i - 1);
      if Owned(records[i], owner, rtype) {
        assert rest[i - 1] in rest && !Absent(rest, owner, rtype);
        if !Owned(records[0], owner, rtype) && Sole(rest, owner, rtype, i - 1) {
          assert Sole(records, owner, rtype, i);
        }
        if Sole(records, owner, rtype, i) {
          assert forall j :: 0 <= j < |rest| && Owned(rest[j], owner, rtype) ==> Owned(records[j + 1], owner, rtype);
          assert Sole(rest, owner, rtype, i - 1);
        }
      }
    }
  }

  lemma {:induction false} RecordsAtExists(records: seq<ResourceRecord>, owner: DnsName, rtype: U16) returns (i: nat)
    requires RecordsAt(records, owner, rtype) != []
    ensures i < |records| && Owned(records[i], owner, rtype)
    decreases |records|
  {
    if Owned(records[0], owner, rtype) {
      i := 0;
    } else {
      i := RecordsAtExists(records[1..], owner, rtype);
      i := i + 1;
    }
  }

  lemma {:induction false} UsableAtOf(records: seq<ResourceRecord>, owner: DnsName)
    ensures UsableAmong(RecordsAt(records, owner, TLSA)) == UsableAt(records, owner)
    decreases |records|
  {
    if records != [] {
      UsableAtOf(records[1..], owner);
      if Owned(records[0], owner, TLSA) {
        assert RecordsAt(records, owner, TLSA)[1..] == RecordsAt(records[1..], owner, TLSA);
      } else {
        assert RecordsAt(records, owner, TLSA) == RecordsAt(records[1..], owner, TLSA);
      }
    }
  }

  lemma AliasIffStep(parse: NameParser, records: seq<ResourceRecord>, owner: DnsName, target: DnsName)
    ensures HopAt(parse, records, owner) == Alias(target) <==> CnameStep(parse, records, owner, target)
  {
    RecordsAtEmptyIff(records, owner, TLSA);
    RecordsAtEmptyIff(records, owner, CNAME);
    if HopAt(parse, records, owner) == Alias(target) {
      var i := RecordsAtExists(records, owner, CNAME);
      RecordsAtSoleIff(records, owner, CNAME, i);
      assert records[i] in records;
    }
    if CnameStep(parse, records, owner, target) {
      var i: nat :| Sole(records, owner, CNAME, i)
        && records[i].rclass == CLASS_IN && parse(records[i].rdata, 0) == Some((target, |records[i].rdata|));
      RecordsAtSoleIff(records, owner, CNAME, i);
      assert forall r <- records :: Owned(r, owner, CNAME) ==> r == records[i];
    }
  }

  lemma AnswerIffTerminal(parse: NameParser, records: seq<ResourceRecord>, owner: DnsName, usable: seq<TlsaRecord>)
    ensures HopAt(parse, records, owner) == Answer(usable) <==> Terminal(records, owner, usable)
  {
    RecordsAtEmptyIff(records, owner, TLSA);
    RecordsAtEmptyIff(records, owner, CNAME);
    UsableAtOf(records, owner);
  }

  lemma NothingIffAbsent(parse: NameParser, records: seq<ResourceRecord>, owner: DnsName)
    ensures HopAt(parse, records, owner) == Nothing <==> Absent(records, owner, TLSA) && Absent(records, owner, CNAME)
  {
    RecordsAtEmptyIff(records, owner, TLSA);
    RecordsAtEmptyIff(records, owner, CNAME);
  }

  // ---- Paths ----

  lemma TerminalTail(parse: NameParser, records: seq<ResourceRecord>, path: seq<DnsName>, usable: seq<TlsaRecord>,
                     k: nat)
    requires TerminalPath(parse, records, path, usable) && k < |path|
    ensures TerminalPath(parse, records, path[k..], usable)
  {
    var tail := path[k..];
    forall i | 0 <= i < |tail| - 1 ensures CnameStep(parse, records, tail[i], tail[i + 1]) {
      assert CnameStep(parse, records, path[k + i], path[k + i + 1]);
    }
  }

  /** Steps are functional, so a terminal path is determined by where it starts. */
  lemma {:induction false} TerminalPathsUnique(parse: NameParser, records: seq<ResourceRecord>, a: seq<DnsName>,
                                               u: seq<TlsaRecord>, b: seq<DnsName>, w: seq<TlsaRecord>)
    requires TerminalPath(parse, records, a, u) && TerminalPath(parse, records, b, w) && a[0] == b[0]
    ensures a == b && u == w
    decreases |a|
  {
    AnswerIffTerminal(parse, records, a[0], u);
    AnswerIffTerminal(parse, records, b[0], w);
    if |a| > 1 {
      AliasIffStep(parse, records, a[0], a[1]);
    }
    if |b| > 1 {
      AliasIffStep(parse, records, b[0], b[1]);
    }
    if |a| > 1 && |b| > 1 {
      TerminalTail(parse, records, a, u, 1);
      TerminalTail(parse, records, b, w, 1);
      TerminalPathsUnique(parse, records, a[1..], u, b[1..], w);
      assert a == [a[0]] + a[1..] && b == [b[0]] + b[1..];
    }
  }

  /** A terminal path never visits an owner twice. */
  lemma TerminalPathSimple(parse: NameParser, records: seq<ResourceRecord>, path: seq<DnsName>,
                           usable: seq<TlsaRecord>, i: nat, j: nat)
    requires TerminalPath(parse, records, path, usable) && i < j < |path|
    ensures path[i] != path[j]
  {
    if path[i] == path[j] {
      TerminalTail(parse, records, path, usable, i);
      TerminalTail(parse, records, path, usable, j);
      TerminalPathsUnique(parse, records, path[i..], usable, path[j..], usable);
    }
  }

  lemma {:induction false} WalkFollowsPath(parse: NameParser, records: seq<ResourceRecord>, path: seq<DnsName>,
                                           usable: seq<TlsaRecord>, seen: seq<DnsName>, budget: nat)
    requires TerminalPath(parse, records, path, usable) && |path| <= budget
    requires forall x <- path :: x !in seen
    ensures Walk(parse, records, path[0], seen, budget) == Ok(usable)
    decreases |path|
  {
    assert path[0] in path;
    if |path| == 1 {
      AnswerIffTerminal(parse, records, path[0], usable);
    } else {
      AliasIffStep(parse, records, path[0], path[1]);
      TerminalTail(parse, records, path, usable, 1);
      forall x | x in path[1..] ensures x !in seen + [path[0]] {
        var j :| 0 <= j < |path| - 1 && path[1..][j] == x;
        assert x in path;
        TerminalPathSimple(parse, records, path, usable, 0, j + 1);
      }
      WalkFollowsPath(parse, records, path[1..], usable, seen + [path[0]], budget - 1);
    }
  }

  lemma {:induction false} WalkFindsPath(parse: NameParser, records: seq<ResourceRecord>, owner: DnsName,
                                         seen: seq<DnsName>, budget: nat, usable: seq<TlsaRecord>)
    returns (path: seq<DnsName>)
    requires Walk(parse, records, owner, seen, budget) == Ok(usable) && usable != []
    ensures TerminalPath(parse, records, path, usable) && path[0] == owner && |path| <= budget
    decreases budget
  {
    match HopAt(parse, records, owner)
    case Answer(_) =>
      AnswerIffTerminal(parse, records, owner, usable);
      path := [owner];
    case Alias(target) =>
      AliasIffStep(parse, records, owner, target);
      var rest := WalkFindsPath(parse, records, target, seen + [owner], budget - 1, usable);
      path := [owner] + rest;
      assert forall i :: 1 <= i < |path| ==> path[i] == rest[i - 1];
  }

  lemma {:induction false} FollowedWalkNeverEmpty(parse: NameParser, records: seq<ResourceRecord>, owner: DnsName,
                                                  seen: seq<DnsName>, budget: nat)
    requires seen != []
    ensures Walk(parse, records, owner, seen, budget) != Ok([])
    decreases budget
  {
    if budget > 0 && owner !in seen {
      match HopAt(parse, records, owner)
      case Answer(usable) => AnswerIffTerminal(parse, records, owner, usable);
      case Alias(target) => FollowedWalkNeverEmpty(parse, records, target, seen + [owner], budget - 1);
      case Nothing =>
      case Broken =>
    }
  }

  /** Records come back exactly when a path of at most eight CNAME steps leads to them, and they are its usable ones. */
  lemma RecordsIffPath(parse: NameParser, records: seq<ResourceRecord>, service: DnsName, usable: seq<TlsaRecord>)
    requires usable != []
    ensures TlsaRecordsFor(parse, records, Some(service)) == Ok(usable)
            <==> exists path ::
              TerminalPath(parse, records, path, usable) && path[0] == service && |path| <= 9
  {
    if TlsaRecordsFor(parse, records, Some(service)) == Ok(usable) {
      var path := WalkFindsPath(parse, records, service, [], MAX_CNAME_CHAIN_LEN + 1, usable);
      assert TerminalPath(parse, records, path, usable);
    }
    if path :| TerminalPath(parse, records, path, usable) && path[0] == service && |path| <= 9 {
      WalkFollowsPath(parse, records, path, usable, [], MAX_CNAME_CHAIN_LEN + 1);
    }
  }

  /** The empty answer comes back exactly when the first owner has neither type; every other case is an error. */
  lemma EmptyIffAbsent(parse: NameParser, records: seq<ResourceRecord>, service: DnsName)
    ensures TlsaRecordsFor(parse, records, Some(service)) == Ok([])
            <==> Absent(records, service, TLSA) && Absent(records, service, CNAME)
  {
    NothingIffAbsent(parse, records, service);
    match HopAt(parse, records, service)
    case Alias(target) => FollowedWalkNeverEmpty(parse, records, target, [] + [service], MAX_CNAME_CHAIN_LEN);
    case Answer(usable) => AnswerIffTerminal(parse, records, service, usable);
    case Nothing =>
    case Broken =>
  }

  /** An owner reached again by CNAME steps makes the response an error. */
  lemma LoopIsError(parse: NameParser, records: seq<ResourceRecord>, cycle: seq<DnsName>)
    requires |cycle| >= 2 && cycle[0] == cycle[|cycle| - 1]
    requires forall i :: 0 <= i < |cycle| - 1 ==> CnameStep(parse, records, cycle[i], cycle[i + 1])
    ensures TlsaRecordsFor(parse, records, Some(cycle[0])) == Err(InvalidDnsResponse)
  {
    var r := TlsaRecordsFor(parse, records, Some(cycle[0]));
    AliasIffStep(parse, records, cycle[0], cycle[1]);
    EmptyIffAbsent(parse, records, cycle[0]);
    NothingIffAbsent(parse, records, cycle[0]);
    assert r.Err? ==> r.error == InvalidDnsResponse;
    if r.Ok? {
      var path := WalkFindsPath(parse, records, cycle[0], [], MAX_CNAME_CHAIN_LEN + 1, r.value);
      PathStaysOnCycle(parse, records, cycle, path, r.value, |path| - 1);
      var k :| 0 <= k < |cycle| - 1 && path[|path| - 1] == cycle[k];
      AliasIffStep(parse, records, cycle[k], cycle[k + 1]);
      AnswerIffTerminal(parse, records, cycle[k], r.value);
    }
  }

  lemma {:induction false} PathStaysOnCycle(parse: NameParser, records: seq<ResourceRecord>, cycle: seq<DnsName>,
                                            path: seq<DnsName>, usable: seq<TlsaRecord>, n: nat)
    requires |cycle| >= 2 && cycle[0] == cycle[|cycle| - 1]
    requires forall i :: 0 <= i < |cycle| - 1 ==> CnameStep(parse, records, cycle[i], cycle[i + 1])
    requires TerminalPath(parse, records, path, usable) && path[0] == cycle[0] && n < |path|
    ensures exists k :: 0 <= k < |cycle| - 1 && path[n] == cycle[k]
    decreases n
  {
    if n > 0 {
      PathStaysOnCycle(parse, records, cycle, path, usable, n - 1);
      var k :| 0 <= k < |cycle| - 1 && path[n - 1] == cycle[k];
      assert CnameStep(parse, records, path[n - 1], path[n - 1 + 1]);
      AliasIffStep(parse, records, cycle[k], cycle[k + 1]);
      AliasIffStep(parse, records, cycle[k], path[n]);
      if k + 1 == |cycle| - 1 {
        assert path[n] == cycle[0];
      }
    }
  }
}
