/** Name-tree authority epochs: which header introduced the root that is authoritative at a height. */
module NameTree {
  import opened Wrappers

  datatype Network = Mainnet | Testnet | Regtest | Simnet

  function Interval(network: Network): nat {
    match network
    case Mainnet => 36
    case Testnet => 36
    case Regtest => 5
    case Simnet => 2
  }

  function AuthorityHeight(network: Network, height: U32): nat {
    if height == 0 then 0 else (height - 1) / Interval(network) * Interval(network) + 1
  }

  /** A header that introduces a root: genesis, or the first header after an interval boundary. */
  predicate Introduces(network: Network, height: nat) {
    height == 0 || (height - 1) % Interval(network) == 0
  }

  /** No multiple lies strictly between two consecutive ones. */
  lemma {:induction false} NoMultipleBetween(p: nat, q: nat, n: nat)
    requires n > 0
    ensures !(q * n < p * n < q * n + n)
  {
    if p < q {
      assert (q - p) * n >= 0;
    } else if p > q {
      assert (p - q - 1) * n >= 0;
    }
  }

  lemma MultipleBelow(x: nat, y: nat, n: nat)
    requires n > 0 && y <= x
    ensures x / n * n <= x < x / n * n + n && (x / n * n) % n == 0
    ensures y % n == 0 ==> y <= x / n * n
  {
    var (p, q) := (y / n, x / n);
    assert x == q * n + x % n && y == p * n + y % n;
    NoMultipleBetween(p, q, n);
    MultipleOf(q, n);
  }

  lemma MultipleOf(q: nat, n: nat)
    requires n > 0
    ensures (q * n) % n == 0
  {
    var (p, r) := ((q * n) / n, (q * n) % n);
    assert q * n == p * n + r;
    NoMultipleBetween(q, p, n);
  }

  /** The authority height is the greatest introducing height at or below the argument. */
  lemma AuthorityIsGreatest(network: Network, height: U32, h: nat)
    ensures var a := AuthorityHeight(network, height);
            && a <= height && height < a + Interval(network) && Introduces(network, a)
            && (a < h <= height ==> !Introduces(network, h))
            && (height > 0 ==> a > 0)
  {
    if height > 0 {
      MultipleBelow(height - 1, if 0 < h <= height then h - 1 else 0, Interval(network));
    }
  }

  /** Two heights have their authority heights in the same order. */
  lemma AuthorityMonotone(network: Network, low: U32, high: U32)
    requires low <= high
    ensures AuthorityHeight(network, low) <= AuthorityHeight(network, high)
    ensures AuthorityHeight(network, AuthorityHeight(network, high)) == AuthorityHeight(network, high)
  {
    var (a, b) := (AuthorityHeight(network, low), AuthorityHeight(network, high));
    AuthorityIsGreatest(network, low, b);
    AuthorityIsGreatest(network, high, a);
    AuthorityIsGreatest(network, b, b);
  }

  /** Within one interval all heights have its first as their authority; intervals are 36, 36, 5 and 2 long. */
  lemma EpochAuthority(network: Network, epoch: nat, offset: nat)
    requires 1 <= offset <= (match network case Mainnet => 36 case Testnet => 36 case Regtest => 5 case Simnet => 2)
    requires var n := match network case Mainnet => 36 case Testnet => 36 case Regtest => 5 case Simnet => 2;
             epoch * n + offset <= U32_MAX
    ensures var n := match network case Mainnet => 36 case Testnet => 36 case Regtest => 5 case Simnet => 2;
            AuthorityHeight(network, epoch * n + offset) == epoch * n + 1
  {
    match network
    case Mainnet => assert (epoch * 36 + (offset - 1)) / 36 == epoch;
    case Testnet => assert (epoch * 36 + (offset - 1)) / 36 == epoch;
    case Regtest => assert (epoch * 5 + (offset - 1)) / 5 == epoch;
    case Simnet => assert (epoch * 2 + (offset - 1)) / 2 == epoch;
  }

  datatype Currentness = Currentness(
    localAuthority: Option<U32>,
    targetAuthority: Option<U32>,
    blocksUntilAuthority: Option<U32>,
    ready: bool)

  function AuthorityOf(network: Network, height: Option<U32>): Option<U32> {
    match height
    case Some(h) =>
      if h > 0 then
        AuthorityIsGreatest(network, h, h);
        Some(AuthorityHeight(network, h))
      else None
    case None => None
  }

  function Assess(network: Network, local: Option<U32>, target: Option<U32>): Currentness {
    var localAuthority := AuthorityOf(network, local);
    var targetAuthority := AuthorityOf(network, target);
    var ready := localAuthority.Some? && targetAuthority.Some? && localAuthority.value >= targetAuthority.value;
    var blocks :=
      if local.None? || targetAuthority.None? then None
      else if ready then Some(0)
      else if targetAuthority.value < local.value then Some(0)
      else Some(targetAuthority.value - local.value);
    Currentness(localAuthority, targetAuthority, blocks, ready)
  }

  /** Ready means: the local chain already holds the header that introduced the root authoritative at the target. */
  lemma ReadyIffReached(network: Network, local: U32, target: U32)
    requires target > 0
    ensures Assess(network, Some(local), Some(target)).ready <==> local >= AuthorityHeight(network, target)
  {
    var a := AuthorityHeight(network, target);
    AuthorityIsGreatest(network, target, target);
    AuthorityIsGreatest(network, local, a);
  }

  /** The reported number of blocks is the least number of further headers after which the assessment is ready. */
  lemma BlocksAreLeast(network: Network, local: U32, target: Option<U32>, extra: nat)
    requires Assess(network, Some(local), target).blocksUntilAuthority.Some?
    ensures var blocks := Assess(network, Some(local), target).blocksUntilAuthority.value;
            && local + blocks <= U32_MAX
            && (local + extra <= U32_MAX ==> (Assess(network, Some(local + extra), target).ready <==> extra >= blocks))
  {
    AuthorityIsGreatest(network, target.value, target.value);
    ReadyIffReached(network, local, target.value);
    if local + extra <= U32_MAX {
      ReadyIffReached(network, local + extra, target.value);
    }
  }

  /** Each reported authority is that of its own height, and none is reported at genesis or for an unknown height. */
  lemma AuthoritiesReported(network: Network, local: Option<U32>, target: Option<U32>, h: U32)
    ensures Assess(network, local, target).localAuthority == Some(h) <==>
            local.Some? && local.value > 0 && h == AuthorityHeight(network, local.value)
    ensures Assess(network, local, target).targetAuthority == Some(h) <==>
            target.Some? && target.value > 0 && h == AuthorityHeight(network, target.value)
  {
    if local.Some? {
      AuthorityIsGreatest(network, local.value, h);
    }
    if target.Some? {
      AuthorityIsGreatest(network, target.value, h);
    }
  }

  /** A number of blocks is reported exactly when both heights are known and the target is past genesis. */
  lemma BlocksReportedIff(network: Network, local: Option<U32>, target: Option<U32>)
    ensures Assess(network, local, target).blocksUntilAuthority.Some?
       <==> local.Some? && target.Some? && target.value > 0
    ensures Assess(network, local, target).ready ==> Assess(network, local, target).blocksUntilAuthority == Some(0)
  {
  }
}
