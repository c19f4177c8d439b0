/**
 * Lexicographic orders, and rings of owners sorted by a total order: the shape shared by NSEC chains of names and
 * NSEC3 chains of hashes. A ring is the strictly increasing sequence of its owners; the last links to the first.
 */
module Order {
  import opened Wrappers

  datatype Ordering = Less | Equal | Greater

  ghost predicate TotalOrder<T(!new)>(cmp: (T, T) -> Ordering) {
    && (forall x, y :: cmp(x, y) == Equal <==> x == y)
    && (forall x, y :: cmp(x, y) == Less <==> cmp(y, x) == Greater)
    && (forall x, y, z :: cmp(x, y) == Less && cmp(y, z) == Less ==> cmp(x, z) == Less)
  }

  function CompareBytes(x: Byte, y: Byte): Ordering {
    if x < y then Less else if x == y then Equal else Greater
  }

  function Lexicographic<T>(cmp: (T, T) -> Ordering, a: seq<T>, b: seq<T>): Ordering {
    if a == [] then if b == [] then Equal else Less
    else if b == [] then Greater
    else if cmp(a[0], b[0]) != Equal then cmp(a[0], b[0])
    else Lexicographic(cmp, a[1..], b[1..])
  }

  function LexicographicOrder<T>(cmp: (T, T) -> Ordering): (seq<T>, seq<T>) -> Ordering {
    (a: seq<T>, b: seq<T>) => Lexicographic(cmp, a, b)
  }

  lemma {:induction false} LexicographicPair<T(!new)>(cmp: (T, T) -> Ordering, a: seq<T>, b: seq<T>)
    requires TotalOrder(cmp)
    ensures Lexicographic(cmp, a, b) == Equal <==> a == b
    ensures Lexicographic(cmp, a, b) == Less <==> Lexicographic(cmp, b, a) == Greater
  {
    if a != [] && b != [] {
      LexicographicPair(cmp, a[1..], b[1..]);
      assert a == [a[0]] + a[1..] && b == [b[0]] + b[1..];
    }
  }

  lemma {:induction false} LexicographicTriple<T(!new)>(cmp: (T, T) -> Ordering, a: seq<T>, b: seq<T>, c: seq<T>)
    requires TotalOrder(cmp)
    requires Lexicographic(cmp, a, b) == Less && Lexicographic(cmp, b, c) == Less
    ensures Lexicographic(cmp, a, c) == Less
  {
    if a != [] && cmp(a[0], b[0]) == Equal && cmp(b[0], c[0]) == Equal {
      LexicographicTriple(cmp, a[1..], b[1..], c[1..]);
    }
  }

  lemma LexicographicIsTotal<T(!new)>(cmp: (T, T) -> Ordering)
    requires TotalOrder(cmp)
    ensures TotalOrder(LexicographicOrder(cmp))
  {
    var lex := LexicographicOrder(cmp);
    forall a: seq<T>, b: seq<T>
      ensures (lex(a, b) == Equal <==> a == b) && (lex(a, b) == Less <==> lex(b, a) == Greater)
    {
      LexicographicPair(cmp, a, b);
    }
    forall a: seq<T>, b: seq<T>, c: seq<T> | lex(a, b) == Less && lex(b, c) == Less
      ensures lex(a, c) == Less
    {
      LexicographicTriple(cmp, a, b, c);
    }
  }

  function Reversed<T>(s: seq<T>): seq<T> {
    seq(|s|, i requires 0 <= i < |s| => s[|s| - 1 - i])
  }

  lemma ReversedInjective<T>(a: seq<T>, b: seq<T>)
    requires Reversed(a) == Reversed(b)
    ensures a == b
  {
    assert |a| == |Reversed(a)| == |b|;
    forall i | 0 <= i < |a| ensures a[i] == b[i] {
      assert Reversed(a)[|a| - 1 - i] == a[i];
      assert Reversed(b)[|a| - 1 - i] == b[i];
    }
  }

  // ---- Rings ----

  ghost predicate Ring<T(!new)>(cmp: (T, T) -> Ordering, owners: seq<T>) {
    |owners| > 0 && forall i, j | 0 <= i < j < |owners| :: cmp(owners[i], owners[j]) == Less
  }

  function NextOwner<T>(owners: seq<T>, i: nat): T
    requires i < |owners|
  {
    if i + 1 < |owners| then owners[i + 1] else owners[0]
  }

  /** The open interval from `owner` to `next`; around the end of the order when `next` is not greater. */
  predicate Between<T(==)>(cmp: (T, T) -> Ordering, owner: T, next: T, q: T) {
    && q != owner
    && match cmp(owner, next)
       case Less => cmp(owner, q) == Less && cmp(q, next) == Less
       case Greater => cmp(owner, q) == Less || cmp(q, next) == Less
       case Equal => true
  }

  ghost predicate CoveredBy<T(!new)>(cmp: (T, T) -> Ordering, owners: seq<T>, i: nat, q: T)
    requires i < |owners|
  {
    Between(cmp, owners[i], NextOwner(owners, i), q)
  }

  lemma OwnerUncovered<T(!new)>(cmp: (T, T) -> Ordering, owners: seq<T>, i: nat, k: nat)
    requires TotalOrder(cmp) && Ring(cmp, owners) && i < |owners| && k < |owners|
    ensures !CoveredBy(cmp, owners, i, owners[k])
  {
  }

  lemma CoverUnique<T(!new)>(cmp: (T, T) -> Ordering, owners: seq<T>, i: nat, j: nat, q: T)
    requires TotalOrder(cmp) && Ring(cmp, owners) && i < |owners| && j < |owners|
    requires CoveredBy(cmp, owners, i, q) && CoveredBy(cmp, owners, j, q)
    ensures i == j
  {
  }

  /** Number of owners below `q`. */
  lemma {:induction false} Locate<T(!new)>(cmp: (T, T) -> Ordering, owners: seq<T>, q: T) returns (n: nat)
    requires TotalOrder(cmp) && forall i, j | 0 <= i < j < |owners| :: cmp(owners[i], owners[j]) == Less
    ensures n <= |owners|
    ensures forall i | 0 <= i < n :: cmp(owners[i], q) == Less
    ensures forall i | n <= i < |owners| :: cmp(owners[i], q) != Less
    decreases |owners|
  {
    if owners == [] {
      n := 0;
    } else {
      var last := |owners| - 1;
      if cmp(owners[last], q) == Less {
        n := |owners|;
      } else {
        n := Locate(cmp, owners[..last], q);
      }
    }
  }

  /** Every element is an owner covered by no link, or no owner and covered by exactly one link. */
  lemma RingPartition<T(!new)>(cmp: (T, T) -> Ordering, owners: seq<T>, q: T)
    requires TotalOrder(cmp) && Ring(cmp, owners)
    ensures if q in owners then forall i: nat | i < |owners| :: !CoveredBy(cmp, owners, i, q)
            else
              exists i: nat | i < |owners| ::
                && CoveredBy(cmp, owners, i, q)
                && forall j: nat | j < |owners| && CoveredBy(cmp, owners, j, q) :: j == i
  {
    if q in owners {
      var k :| 0 <= k < |owners| && owners[k] == q;
      forall i: nat | i < |owners| ensures !CoveredBy(cmp, owners, i, q) {
        OwnerUncovered(cmp, owners, i, k);
      }
    } else {
      var n := Locate(cmp, owners, q);
      var i := if n == 0 then |owners| - 1 else n - 1;
      assert n < |owners| ==> cmp(owners[n], q) == Greater by {
        if n < |owners| {
          assert owners[n] != q;
        }
      }
      assert CoveredBy(cmp, owners, i, q);
      forall j: nat | j < |owners| && CoveredBy(cmp, owners, j, q) ensures j == i {
        CoverUnique(cmp, owners, i, j, q);
      }
    }
  }
}
