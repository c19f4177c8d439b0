/** Names, resource records and the wire encoding of names. */
module Dns {
  import opened Wrappers
  import opened Order

  /** A DNS label: at most 63 bytes, lower case. */
  type Label = l: seq<Byte> | 1 <= |l| <= 63 && forall b <- l :: !(65 <= b <= 90) witness [97]

  /** Labels from the most specific to the top; the root name has none. */
  type DnsName = seq<Label>

  const STAR: Label := [42]

  // Record types are their codes.
  const NS: U16 := 2
  const CNAME: U16 := 5
  const SOA: U16 := 6
  const SRV: U16 := 33
  const DNAME: U16 := 39
  const DS: U16 := 43
  const RRSIG: U16 := 46
  const NSEC: U16 := 47
  const DNSKEY: U16 := 48
  const NSEC3: U16 := 50
  const TLSA: U16 := 52
  const SVCB: U16 := 64
  const HTTPS: U16 := 65

  datatype ResourceRecord = ResourceRecord(name: DnsName, rtype: U16, rclass: U16, ttl: U32, rdata: seq<Byte>)

  /** Reads a possibly compressed name at an offset, with the offset after it. */
  type NameParser = (seq<Byte>, nat) -> Option<(DnsName, nat)>

  function LowerCase(b: Byte): Byte {
    if 65 <= b <= 90 then b + 32 else b
  }

  function LowerAll(s: seq<Byte>): seq<Byte> {
    if s == [] then [] else [LowerCase(s[0])] + LowerAll(s[1..])
  }

  lemma {:induction false} LowerAllIdentity(s: seq<Byte>)
    requires forall b <- s :: !(65 <= b <= 90)
    ensures LowerAll(s) == s
  {
    if s != [] {
      assert s[0] in s && forall b <- s[1..] :: b in s;
      LowerAllIdentity(s[1..]);
    }
  }

  function EncodeLabel(l: Label): seq<Byte> {
    [|l|] + LowerAll(l)
  }

  function EncodeName(n: DnsName): seq<Byte> {
    if n == [] then [0] else EncodeLabel(n[0]) + EncodeName(n[1..])
  }

  /** Encoded names form a prefix code: what follows them never changes how they are read. */
  lemma {:induction false} NamePrefixCode(a: DnsName, x: seq<Byte>, b: DnsName, y: seq<Byte>)
    requires EncodeName(a) + x == EncodeName(b) + y
    ensures a == b && x == y
    decreases |a|
  {
    var s := EncodeName(a) + x;
    assert s[0] == if a == [] then 0 else |a[0]|;
    assert s[0] == if b == [] then 0 else |b[0]|;
    if a == [] {
      assert x == s[1..] == y;
    } else {
      var n := |a[0]|;
      LowerAllIdentity(a[0]);
      LowerAllIdentity(b[0]);
      assert EncodeName(a) + x == [n] + a[0] + (EncodeName(a[1..]) + x);
      assert EncodeName(b) + y == [n] + b[0] + (EncodeName(b[1..]) + y);
      assert a[0] == s[1..1 + n] == b[0];
      assert EncodeName(a[1..]) + x == s[1 + n..] == EncodeName(b[1..]) + y;
      NamePrefixCode(a[1..], x, b[1..], y);
      assert a == [a[0]] + a[1..] && b == [b[0]] + b[1..];
    }
  }

  /** The suffix of `name` with `n` labels. */
  function SuffixOf(name: DnsName, n: nat): DnsName
    requires n <= |name|
  {
    name[|name| - n..]
  }

  predicate IsStrictSubdomain(name: DnsName, parent: DnsName) {
    |name| > |parent| && name[|name| - |parent|..] == parent
  }

  predicate AtOrBelow(name: DnsName, top: DnsName) {
    |name| >= |top| && name[|name| - |top|..] == top
  }

  /** Which types a name owns. */
  type TypeMap = (DnsName, U16) -> bool

  /** A delegation or a redirection: what lies below the name is not this zone's to deny. */
  predicate IsCut(types: TypeMap, name: DnsName) {
    types(name, DNAME) || (types(name, NS) && !types(name, SOA))
  }

  // ---- Canonical order of names ----

  function CompareLabels(): (seq<Byte>, seq<Byte>) -> Ordering {
    LexicographicOrder(CompareBytes)
  }

  function CompareNames(a: DnsName, b: DnsName): Ordering {
    Lexicographic<seq<Byte>>(CompareLabels(), Reversed(a), Reversed(b))
  }

  lemma NamesTotallyOrdered()
    ensures TotalOrder(CompareNames)
  {
    LexicographicIsTotal(CompareBytes);
    LexicographicIsTotal(CompareLabels());
    var lex := LexicographicOrder(CompareLabels());
    forall a: DnsName, b: DnsName
      ensures (CompareNames(a, b) == Equal <==> a == b)
      ensures CompareNames(a, b) == Less <==> CompareNames(b, a) == Greater
    {
      LexicographicPair<seq<Byte>>(CompareLabels(), Reversed(a), Reversed(b));
      if Reversed(a) == Reversed(b) {
        ReversedInjective(a, b);
      }
    }
    forall a: DnsName, b: DnsName, c: DnsName | CompareNames(a, b) == Less && CompareNames(b, c) == Less
      ensures CompareNames(a, c) == Less
    {
      LexicographicTriple<seq<Byte>>(CompareLabels(), Reversed(a), Reversed(b), Reversed(c));
    }
  }

  /** The order at two names, and at three. */
  lemma NamesPair(a: DnsName, b: DnsName)
    ensures CompareNames(a, b) == Equal <==> a == b
    ensures CompareNames(a, b) == Less <==> CompareNames(b, a) == Greater
  {
    NamesTotallyOrdered();
  }

  lemma NamesTriple(a: DnsName, b: DnsName, c: DnsName)
    requires CompareNames(a, b) != Greater && CompareNames(b, c) != Greater
    ensures CompareNames(a, c) != Greater
  {
    NamesPair(a, b);
    NamesPair(b, c);
    NamesTotallyOrdered();
  }

  /** Compares label by label from the top of the tree. */
  method CanonicalNameCompare(left: DnsName, right: DnsName) returns (r: Ordering)
    ensures r == CompareNames(left, right)
  {
    var i := 0;
    assert left[..|left|] == left && right[..|right|] == right;
    while true
      invariant i <= |left| && i <= |right|
      invariant CompareNames(left, right) == CompareNames(left[..|left| - i], right[..|right| - i])
      decreases |left| - i
    {
      var (m, n) := (|left| - i, |right| - i);
      var (a, b) := (Reversed(left[..m]), Reversed(right[..n]));
      if m > 0 && n > 0 {
        assert a[0] == left[m - 1] && b[0] == right[n - 1];
        var ordering := CompareLabels()(left[m - 1], right[n - 1]);
        if ordering != Equal {
          return ordering;
        }
        assert a[1..] == Reversed(left[..m - 1]) && b[1..] == Reversed(right[..n - 1]);
        i := i + 1;
      } else if n > 0 {
        return Less;
      } else if m > 0 {
        return Greater;
      } else {
        return Equal;
      }
    }
  }
}
