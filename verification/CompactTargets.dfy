/** The compact form of a target reads back as the target rounded down to the precision of its mantissa. */
module CompactTargets {
  import opened Wrappers
  import opened Pow

  lemma Powers()
    ensures Pow256(0) == 1 && Pow256(1) == 0x100 && Pow256(2) == 0x1_0000 && Pow256(3) == 0x100_0000
  {
  }

  lemma CompactForm(exponent: nat, mantissa: nat, bits: nat)
    requires exponent <= 33 && 0 < mantissa < 0x80_0000 && bits == exponent * 0x100_0000 + mantissa
    ensures bits <= U32_MAX && Exponent(bits) == exponent && Mantissa(bits) == mantissa && !SignSet(bits)
  {
  }

  lemma ReadsLarge(exponent: nat, mantissa: nat, bits: nat, target: nat)
    requires 3 < exponent <= 33 && 0 < mantissa < 0x80_0000 && bits == exponent * 0x100_0000 + mantissa
    requires mantissa * Pow256(exponent - 3) <= target < TWO_256
    ensures bits <= U32_MAX && CompactToTarget(bits) == Ok(mantissa * Pow256(exponent - 3))
  {
    CompactForm(exponent, mantissa, bits);
    Product(1, mantissa, 1, Pow256(exponent - 3));
  }

  lemma ReadsSmall(exponent: nat, mantissa: nat, bits: nat, target: nat)
    requires exponent <= 3 && 0 < mantissa < 0x80_0000 && bits == exponent * 0x100_0000 + mantissa
    requires mantissa == target * Pow256(3 - exponent) && 0 < target < 0x100_0000
    ensures bits <= U32_MAX && CompactToTarget(bits) == Ok(target)
  {
    CompactForm(exponent, mantissa, bits);
    QuotientUnique(mantissa, Pow256(3 - exponent), target);
  }

  /** What rounding down means: only whole multiples of a power of 256 are kept, and at least fifteen bits. */
  ghost predicate RoundedDown(target: nat, n: nat, rounded: nat) {
    && rounded == Quotient(target, Pow256(n)) * Pow256(n)
    && Quotient(target, Pow256(n)) < 0x80_0000
    && (n == 0 || 0x8000 <= Quotient(target, Pow256(n)))
  }

  lemma NotRounded(target: nat)
    requires target < 0x80_0000
    ensures RoundedDown(target, 0, target)
  {
    QuotientUnique(target, 1, target);
  }

  /** The compact form from the length of the target and its top three bytes. */
  function Assemble(length: nat, mantissa: nat): nat {
    if mantissa >= 0x80_0000 then (length + 1) * 0x100_0000 + mantissa / 256 else length * 0x100_0000 + mantissa
  }

  lemma Assembled(target: nat, length: nat, mantissa: nat)
    requires target > 0 && length == ByteLength(target) && mantissa < 0x100_0000
    requires mantissa == if length <= 3 then target * Pow256(3 - length) else Quotient(target, Pow256(length - 3))
    ensures TargetToCompact(target) == Assemble(length, mantissa)
  {
    assert mantissa / 0x80_0000 % 2 == 1 <==> mantissa >= 0x80_0000;
  }

  lemma SmallMantissa(target: nat, length: nat, mantissa: nat)
    requires 0 < target && length == ByteLength(target) <= 3 && mantissa == target * Pow256(3 - length)
    ensures 0 < length && 0 < target < 0x100_0000 && target <= mantissa < 0x100_0000
  {
    ByteLengthIs(target);
    Powers();
    Pow256Grows(length, 3);
    Pow256Add(length, 3 - length);
    Product(target, target, 1, Pow256(3 - length));
    Product(target + 1, Pow256(length), Pow256(3 - length), Pow256(3 - length));
  }

  lemma SmallAssembled(target: nat, length: nat, mantissa: nat) returns (n: nat)
    requires 0 < length <= 3 && mantissa == target * Pow256(3 - length)
    requires 0 < target < 0x100_0000 && target <= mantissa < 0x100_0000
    ensures var bits := Assemble(length, mantissa);
            bits <= U32_MAX && CompactToTarget(bits).Ok? && RoundedDown(target, n, CompactToTarget(bits).value)
  {
    if mantissa < 0x80_0000 {
      n := 0;
      NotRounded(target);
      ReadsSmall(length, mantissa, Assemble(length, mantissa), target);
    } else if length < 3 {
      n := 0;
      DropsByte(target, length, mantissa);
      NotRounded(target);
      ReadsSmall(length + 1, mantissa / 256, Assemble(length, mantissa), target);
    } else {
      n := 1;
      Powers();
      QuotientUnique(target, 256, target / 256);
      ReadsLarge(4, target / 256, Assemble(length, mantissa), target);
    }
  }

  lemma DropsByte(target: nat, length: nat, mantissa: nat)
    requires 0 < length < 3 && mantissa == target * Pow256(3 - length) < 0x100_0000
    ensures mantissa / 256 == target * Pow256(3 - (length + 1)) && target < 0x80_0000
  {
    var unit := Pow256(2 - length);
    assert Pow256(3 - length) == 256 * unit;
    assert target * (256 * unit) == 256 * (target * unit);
    Product(target, target, 1, unit);
  }

  lemma LargeMantissa(target: nat, L: nat)
    requires 0 < target < TWO_256 && L == ByteLength(target) > 3
    ensures L <= 32
    ensures 0x1_0000 <= Quotient(target, Pow256(L - 3)) < 0x100_0000
  {
    ByteLengthIs(target);
    Powers();
    Pow256Add(2, L - 3);
    Pow256Add(3, L - 3);
    QuotientBounds(target, Pow256(L - 3), 0x1_0000, 0x100_0000);
    if L > 32 {
      Pow256Grows(32, L - 1);
      TopPower();
    }
  }

  lemma TopPower()
    ensures Pow256(32) == TWO_256
  {
    assert Pow256(4) == 0x1_0000_0000;
    assert Pow256(8) == 0x1_0000_0000_0000_0000;
    Pow256Add(8, 8);
    Pow256Add(16, 16);
  }

  lemma QuotientBounds(a: nat, d: nat, low: nat, high: nat)
    requires d > 0 && low * d <= a < high * d
    ensures low <= Quotient(a, d) < high
  {
    var q := Quotient(a, d);
    if q < low {
      Product(q + 1, low, d, d);
    }
    if q >= high {
      Product(high, q, d, d);
    }
  }

  /** Dropping another byte of a quotient is one division by 256 times as much. */
  lemma QuotientAgain(a: nat, d: nat, m: nat)
    requires d > 0 && m == Quotient(a, d)
    ensures Quotient(a, 256 * d) == m / 256
  {
    var q := m / 256;
    Product(256 * q, m, d, d);
    Product(m + 1, 256 * (q + 1), d, d);
    assert q * (256 * d) == 256 * q * d;
    assert (q + 1) * (256 * d) == 256 * (q + 1) * d;
    QuotientUnique(a, 256 * d, q);
  }

  lemma LargeAssembled(target: nat, length: nat, mantissa: nat) returns (n: nat)
    requires 3 < length <= 32 && target < TWO_256 && mantissa == Quotient(target, Pow256(length - 3))
    requires 0x1_0000 <= mantissa < 0x100_0000
    ensures var bits := Assemble(length, mantissa);
            bits <= U32_MAX && CompactToTarget(bits).Ok? && RoundedDown(target, n, CompactToTarget(bits).value)
  {
    if mantissa < 0x80_0000 {
      n := length - 3;
      ReadsLarge(length, mantissa, Assemble(length, mantissa), target);
    } else {
      n := length - 2;
      QuotientAgain(target, Pow256(length - 3), mantissa);
      ReadsLarge(length + 1, mantissa / 256, Assemble(length, mantissa), target);
    }
  }

  /** Every target that fits 256 bits has a compact form, which reads back as the target rounded down. */
  lemma CompactRoundsDown(target: nat) returns (n: nat)
    requires 0 < target < TWO_256
    ensures var bits := TargetToCompact(target);
            bits <= U32_MAX && CompactToTarget(bits).Ok? && RoundedDown(target, n, CompactToTarget(bits).value)
  {
    var length := ByteLength(target);
    if length <= 3 {
      var mantissa := target * Pow256(3 - length);
      SmallMantissa(target, length, mantissa);
      Assembled(target, length, mantissa);
      n := SmallAssembled(target, length, mantissa);
    } else {
      var mantissa := Quotient(target, Pow256(length - 3));
      LargeMantissa(target, length);
      Assembled(target, length, mantissa);
      n := LargeAssembled(target, length, mantissa);
    }
  }
}
