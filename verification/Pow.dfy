/** Compact targets and chainwork as unbounded naturals. */
module Pow {
  import opened Wrappers

  const TWO_256: nat := 0x1_0000000000000000000000000000000000000000000000000000000000000000

  datatype PowError = NegativeTarget | ZeroTarget | Overflow

  /** Integer division, characterised by its remainder bounds. */
  function Quotient(a: nat, d: nat): (q: nat)
    requires d > 0
    ensures q * d <= a < (q + 1) * d
    ensures d <= a ==> q >= 1
  {
    assert a == d * (a / d) + a % d;
    a / d
  }

  function Pow256(n: nat): (r: nat)
    ensures r > 0
  {
    if n == 0 then 1 else 256 * Pow256(n - 1)
  }

  /** A signed 23-bit mantissa scaled by a base-256 exponent; the sign bit is bit 23. */
  function CompactToTarget(bits: U32): (r: Result<nat, PowError>)
    ensures r.Ok? ==> 0 < r.value < TWO_256
  {
    var exponent := bits / 0x100_0000;
    var mantissa := bits % 0x80_0000;
    if bits / 0x80_0000 % 2 == 1 then Err(NegativeTarget)
    else if mantissa == 0 then Err(ZeroTarget)
    else
      var target := if exponent <= 3 then Quotient(mantissa, Pow256(3 - exponent)) else mantissa * Pow256(exponent - 3);
      if target == 0 then Err(ZeroTarget)
      else if target >= TWO_256 then Err(Overflow)
      else Ok(target)
  }

  /** Expected number of hashes for one header: 2^256 / (target + 1). */
  function WorkForBits(bits: U32): (r: Result<nat, PowError>)
    ensures r.Ok? ==> r.value >= 1
  {
    var target :- CompactToTarget(bits);
    Ok(Quotient(TWO_256, target + 1))
  }

  /** The byte-array comparison of the proof-of-work check, on big-endian integers. */
  function VerifyPow(hash: nat, bits: U32): Result<bool, PowError> {
    var exponent := bits / 0x100_0000;
    var mantissa := bits % 0x80_0000;
    if bits / 0x80_0000 % 2 == 1 then Err(NegativeTarget)
    else if mantissa == 0 then Err(ZeroTarget)
    else if exponent > 32 then
      var target :- CompactToTarget(bits);
      Ok(hash <= target)
    else if exponent <= 3 then Ok(hash <= Quotient(mantissa, Pow256(3 - exponent)))
    else Ok(hash <= mantissa * Pow256(exponent - 3))
  }

  function TargetForWork(work: nat): Result<nat, PowError> {
    if work == 0 || Quotient(TWO_256, work) == 0 then Err(ZeroTarget) else Ok(Quotient(TWO_256, work) - 1)
  }

  function ByteLength(n: nat): nat {
    if n == 0 then 0 else 1 + ByteLength(n / 256)
  }

  function TargetToCompact(target: nat): nat {
    if target == 0 then 0
    else
      var exponent := ByteLength(target);
      var mantissa := if exponent <= 3 then target * Pow256(3 - exponent) else Quotient(target, Pow256(exponent - 3));
      if mantissa / 0x80_0000 % 2 == 1
      then (exponent + 1) * 0x100_0000 + mantissa / 256
      else exponent * 0x100_0000 + mantissa
  }

  lemma {:induction false} Pow256Grows(n: nat, m: nat)
    requires n <= m
    ensures Pow256(n) <= Pow256(m)
    decreases m
  {
    if n < m {
      Pow256Grows(n, m - 1);
    }
  }

  /** Up to exponent 32 no mantissa overflows 256 bits. */
  lemma SmallExponentFits(mantissa: nat, n: nat)
    requires mantissa < 0x80_0000 && n <= 29
    ensures mantissa * Pow256(n) < TWO_256
  {
    assert Pow256(4) == 0x1_0000_0000;
    assert Pow256(8) == 0x1_0000_0000_0000_0000;
    assert Pow256(12) == 0x1_0000_0000_0000_0000_0000_0000;
    assert Pow256(16) == 0x1_0000_0000_0000_0000_0000_0000_0000_0000;
    assert Pow256(20) == 0x1_0000_0000_0000_0000_0000_0000_0000_0000_0000_0000;
    assert Pow256(24) == 0x1_0000_0000_0000_0000_0000_0000_0000_0000_0000_0000_0000_0000;
    assert Pow256(28) == 0x1_0000_0000_0000_0000_0000_0000_0000_0000_0000_0000_0000_0000_0000_0000;
    Pow256Grows(n, 29);
    Product(mantissa, 0x80_0000, Pow256(n), Pow256(29));
  }

  lemma Product(a: nat, b: nat, c: nat, d: nat)
    requires a <= b && c <= d
    ensures a * c <= b * d
  {
  }

  function Exponent(bits: U32): nat {
    bits / 0x100_0000
  }

  function Mantissa(bits: U32): nat {
    bits % 0x80_0000
  }

  predicate SignSet(bits: U32) {
    bits / 0x80_0000 % 2 == 1
  }

  /** A positive mantissa that a small exponent shifts out altogether. */
  predicate ShiftedToZero(bits: U32) {
    !SignSet(bits) && Exponent(bits) <= 3 && 0 < Mantissa(bits) < Pow256(3 - Exponent(bits))
  }

  lemma QuotientZeroIff(a: nat, d: nat)
    requires d > 0
    ensures Quotient(a, d) == 0 <==> a < d
  {
  }

  /** Which compact forms are targets, which they are, and which error the others give. */
  lemma CompactTargetIff(bits: U32)
    ensures var (r, exponent, mantissa) := (CompactToTarget(bits), Exponent(bits), Mantissa(bits));
            && (r == Err(NegativeTarget) <==> SignSet(bits))
            && (r == Err(ZeroTarget) <==> !SignSet(bits) && (mantissa == 0 || ShiftedToZero(bits)))
            && (r == Err(Overflow) <==> !SignSet(bits) && exponent > 3 && mantissa * Pow256(exponent - 3) >= TWO_256)
            && (r.Ok? && exponent > 3 ==> r.value == mantissa * Pow256(exponent - 3))
            && (r.Ok? && exponent <= 3 ==>
                r.value * Pow256(3 - exponent) <= mantissa < (r.value + 1) * Pow256(3 - exponent))
  {
    var (exponent, mantissa) := (Exponent(bits), Mantissa(bits));
    if exponent <= 3 {
      QuotientZeroIff(mantissa, Pow256(3 - exponent));
      QuotientBelow(mantissa, Pow256(3 - exponent));
    } else if mantissa > 0 {
      Product(1, mantissa, 1, Pow256(exponent - 3));
    }
  }

  lemma QuotientBelow(a: nat, d: nat)
    requires d > 0
    ensures Quotient(a, d) <= a
  {
    Product(Quotient(a, d), Quotient(a, d), 1, d);
  }

  /**
   * Proof of work on byte arrays is comparison with the compact target, with the same errors. The one exception is a
   * target shifted down to zero: the byte comparison then accepts the zero hash where the target itself is an error.
   */
  lemma PowMatchesTarget(hash: nat, bits: U32)
    ensures if ShiftedToZero(bits) then
              CompactToTarget(bits) == Err(ZeroTarget) && VerifyPow(hash, bits) == Ok(hash == 0)
            else
              match CompactToTarget(bits)
              case Ok(target) => VerifyPow(hash, bits) == Ok(hash <= target)
              case Err(e) => VerifyPow(hash, bits) == Err(e)
  {
    CompactTargetIff(bits);
    var (exponent, mantissa) := (Exponent(bits), Mantissa(bits));
    if exponent <= 3 {
      QuotientZeroIff(mantissa, Pow256(3 - exponent));
    } else if exponent <= 32 {
      SmallExponentFits(mantissa, exponent - 3);
    }
  }

  /** Exponent one and mantissa one. */
  lemma ShiftedTarget()
    ensures ShiftedToZero(0x0100_0001)
    ensures CompactToTarget(0x0100_0001) == Err(ZeroTarget) && VerifyPow(0, 0x0100_0001) == Ok(true)
  {
    assert Pow256(2) == 0x1_0000;
    PowMatchesTarget(0, 0x0100_0001);
  }

  // ---- Work and targets ----

  lemma QuotientUnique(a: nat, d: nat, q: nat)
    requires d > 0 && q * d <= a < (q + 1) * d
    ensures Quotient(a, d) == q
  {
    var p := Quotient(a, d);
    if p < q {
      Product(p + 1, q, d, d);
    } else if q < p {
      Product(q + 1, p, d, d);
    }
  }

  /** The work of a difficulty is the floor of 2^256 over one more than its target; no target, no work. */
  lemma WorkIff(bits: U32, work: nat)
    ensures WorkForBits(bits) == Ok(work) <==>
            && CompactToTarget(bits).Ok?
            && work * (CompactToTarget(bits).value + 1) <= TWO_256 < (work + 1) * (CompactToTarget(bits).value + 1)
    ensures WorkForBits(bits).Err? ==> CompactToTarget(bits) == Err(WorkForBits(bits).error)
  {
    var target := CompactToTarget(bits);
    if target.Ok? && work * (target.value + 1) <= TWO_256 < (work + 1) * (target.value + 1) {
      QuotientUnique(TWO_256, target.value + 1, work);
    }
  }

  /** The target for an amount of work is one less than the floor of 2^256 over it. */
  lemma TargetForWorkIff(work: nat, target: nat)
    ensures TargetForWork(work) == Ok(target) <==> (target + 1) * work <= TWO_256 < (target + 2) * work
    ensures TargetForWork(work).Err? <==> work == 0 || work > TWO_256
    ensures TargetForWork(work).Err? ==> TargetForWork(work) == Err(ZeroTarget)
  {
    if work > 0 {
      QuotientZeroIff(TWO_256, work);
      if (target + 1) * work <= TWO_256 < (target + 2) * work {
        QuotientUnique(TWO_256, work, target + 1);
      }
    }
  }

  // ---- Compact targets ----

  lemma {:induction false} ByteLengthIs(n: nat)
    ensures n < Pow256(ByteLength(n)) && (n > 0 ==> ByteLength(n) > 0 && Pow256(ByteLength(n) - 1) <= n)
  {
    if n > 0 {
      ByteLengthIs(n / 256);
    }
  }

  lemma {:induction false} Pow256Add(a: nat, b: nat)
    ensures Pow256(a + b) == Pow256(a) * Pow256(b)
  {
    if a > 0 {
      Pow256Add(a - 1, b);
      Associate(256, Pow256(a - 1), Pow256(b));
    }
  }

  lemma Associate(a: nat, b: nat, c: nat)
    ensures a * b * c == a * (b * c)
  {
  }
}
