/** The compact difficulty form, after `CalculateTarget` in src/htnstratum/hasher.go. */
module CompactTarget {
  import opened Arithmetic

  const MANTISSA := 0x100_0000

  /** The low three bytes, and what is above them. */
  function Mantissa(bits: nat): nat { bits % MANTISSA }
  function Size(bits: nat): nat { bits / MANTISSA }

  method CalculateTarget(bits: nat) returns (target: nat)
    ensures Size(bits) >= 3 ==> target == Mantissa(bits) * Pow(256, Size(bits) - 3)
    ensures Size(bits) < 3 ==> target == Mantissa(bits) / Pow(256, 3 - Size(bits))
    ensures IsTarget(bits, target)
  {
    var truncated := bits / MANTISSA;
    var mantissa := bits % MANTISSA;
    var exponent := 0;
    if truncated <= 3 {
      mantissa := mantissa / Pow(2, 8 * (3 - truncated));
      BytePowers(3 - truncated);
    } else {
      exponent := 8 * (truncated - 3);
      BytePowers(truncated - 3);
    }
    target := mantissa * Pow(2, exponent);
    if truncated < 3 {
      FloorByParts(bits % MANTISSA, Pow(256, 3 - truncated));
    }
  }

  lemma {:induction false} BytePowers(k: nat)
    ensures Pow(2, 8 * k) == Pow(256, k)
  {
    if k == 0 {
    } else {
      BytePowers(k - 1);
      PowAdd(2, 8, 8 * (k - 1));
      PowAdd(2, 4, 4);
      assert Pow(2, 4) == 16;
    }
  }

  lemma FloorByParts(m: nat, d: nat)
    requires d > 0
    ensures (m / d) * d <= m < (m / d + 1) * d
  {
    assert m == (m / d) * d + m % d;
  }

  /** target is floor(mantissa * 256^(size - 3)), without a fraction in sight. */
  ghost predicate IsTarget(bits: nat, target: nat) {
    if Size(bits) >= 3 then target == Mantissa(bits) * Pow(256, Size(bits) - 3)
    else var d := Pow(256, 3 - Size(bits)); target * d <= Mantissa(bits) < (target + 1) * d
  }

  /** The mantissa's top byte is not zero. */
  ghost predicate Normalised(bits: nat) { Mantissa(bits) >= 0x1_0000 }

  /** From size 3 up, the next size takes over where the last one ends. */
  lemma LargerSizeWins(m: nat, s: nat, m': nat, s': nat)
    requires m < MANTISSA && 0x1_0000 <= m' && 3 <= s < s'
    ensures m * Pow(256, s - 3) < m' * Pow(256, s' - 3)
  {
    var p := Pow(256, s - 3);
    assert Pow(256, s - 3 + 1) == 256 * p;
    PowGrows(256, s - 2, s' - 3);
    ProductMonotone(m, MANTISSA, p);
    assert MANTISSA * p == 0x1_0000 * (256 * p);
    ProductMonotone(256 * p, Pow(256, s' - 3), 0x1_0000);
    ProductMonotone(0x1_0000, m', Pow(256, s' - 3));
  }

  lemma SmallTargets(bits: nat, target: nat)
    requires IsTarget(bits, target) && Size(bits) < 3
    ensures Size(bits) == 2 ==> target == Mantissa(bits) / 256
    ensures Size(bits) == 1 ==> target == Mantissa(bits) / 65536
    ensures Size(bits) == 0 ==> target == 0
  {
    assert Pow(256, 1) == 256 && Pow(256, 2) == 256 * Pow(256, 1) && Pow(256, 3) == 256 * Pow(256, 2);
  }

  /** On normalised values a larger bits value never gives a smaller target, and a strictly larger
      one from size 3 up. */
  lemma TargetsMonotone(bits: nat, bits': nat, target: nat, target': nat)
    requires bits < bits' && Normalised(bits) && Normalised(bits')
    requires IsTarget(bits, target) && IsTarget(bits', target')
    ensures target <= target'
    ensures Size(bits) >= 3 ==> target < target'
  {
    var m, s, m', s' := Mantissa(bits), Size(bits), Mantissa(bits'), Size(bits');
    assert s < s' || (s == s' && m < m');
    if s >= 3 {
      if s == s' {
        ProductMonotone(m, m', Pow(256, s - 3));
      } else {
        LargerSizeWins(m, s, m', s');
      }
    } else {
      SmallTargets(bits, target);
      if s' < 3 {
        SmallTargets(bits', target');
      } else {
        PowGrows(256, 0, s' - 3);
        ProductMonotone(1, Pow(256, s' - 3), m');
        assert target <= MANTISSA / 256 <= m';
      }
    }
  }
}
