/** The ASERT target of pallets/difficulty/src/asert.rs.

    `ComputeNextTarget` follows the source branch by branch. Its local variables carry the
    source's integer widths as subset types, so verifying it proves that no intermediate
    value overflows. `Target` is the saturating formula it refines. */
module Asert {
  import opened Basics
  import opened Powers

  const FRAC_ONE := 65536
  const A1 := 45426
  const A2 := 15736
  const A3 := 3638

  const U64_MAX := 0xFFFF_FFFF_FFFF_FFFF

  type U64 = x: int | 0 <= x <= U64_MAX
  type I128 = x: int |
    -0x8000_0000_0000_0000_0000_0000_0000_0000 <= x < 0x8000_0000_0000_0000_0000_0000_0000_0000
  type U256 = x: int | 0 <= x <= U256_MAX
  type U512 = x: int | 0 <= x < (U256_MAX + 1) * (U256_MAX + 1)

  /** Rust's `/` on signed integers: rounds toward zero. */
  function TruncDiv(a: int, b: int): int
    requires b > 0
  {
    if a >= 0 then a / b else -((-a) / b)
  }

  /** The cubic fit of 2^x over one unit of the exponent, in 16-bit fixed point. */
  function FracFactor(x: int): (f: I128)
    requires 0 <= x < FRAC_ONE
    ensures FRAC_ONE <= f < 2 * FRAC_ONE
  {
    var term1: I128 := A1 * x / FRAC_ONE;
    var t2: I128 := A2 * x / FRAC_ONE;
    TermBound(t2, x, A2);
    var term2: I128 := t2 * x / FRAC_ONE;
    var t3: I128 := A3 * x / FRAC_ONE;
    TermBound(t3, x, A3);
    var u3: I128 := t3 * x / FRAC_ONE;
    TermBound(u3, x, A3);
    var term3: I128 := u3 * x / FRAC_ONE;
    FRAC_ONE + term1 + term2 + term3
  }

  lemma TermBound(c: int, x: int, bound: int)
    requires 0 <= c <= bound && 0 <= x < FRAC_ONE
    ensures 0 <= c * x <= bound * FRAC_ONE
    ensures 0 <= c * x / FRAC_ONE <= bound
  {
    MulMonotone(c, bound, x);
    MulMonotone(x, FRAC_ONE, bound);
    MulMonotone(0, c, x);
    DivMonotone(c * x, bound * FRAC_ONE, FRAC_ONE);
    MulDivCancel(bound, FRAC_ONE);
  }

  /** The exponent in 16-bit fixed point, `behind` seconds behind schedule. */
  function Exponent(behind: int, halflife: int): int
    requires halflife > 0
  {
    TruncDiv(behind * FRAC_ONE, halflife)
  }

  function ComputeNextTarget(anchorTarget: U256, timeDelta: I128, heightDelta: U64,
                             targetBlockTime: U64, halflife: U64): (result: U256)
    requires halflife > 0
    requires -U64_MAX <= timeDelta <= U64_MAX
    requires targetBlockTime * heightDelta <= U64_MAX
    ensures result >= 1
  {
    var idealTime: U64 := targetBlockTime * heightDelta;
    var exponentNumer: I128 := (timeDelta - idealTime) * FRAC_ONE;
    ExponentBound(timeDelta - idealTime, halflife);
    var exponentFp: I128 := TruncDiv(exponentNumer, halflife);
    var intPart: I128 := exponentFp / FRAC_ONE;
    var fracPart: I128 := exponentFp - intPart * FRAC_ONE;
    var fracFactor := FracFactor(fracPart);
    var scaled: U256 := ApplyFactor(anchorTarget, fracFactor);
    ShiftTarget(scaled, intPart)
  }

  lemma ExponentBound(behind: int, halflife: int)
    requires halflife > 0
    ensures -Max(behind, -behind) * FRAC_ONE <= Exponent(behind, halflife) <= Max(behind, -behind) * FRAC_ONE
  {
    var n := behind * FRAC_ONE;
    var m := if n >= 0 then n else -n;
    MulMonotone(1, halflife, m);
    DivMonotone(m, m * halflife, halflife);
    MulDivCancel(m, halflife);
    DivMonotone(0, m, halflife);
  }

  /** `checked_mul` on 256 bits, falling back to a 512-bit product that saturates. */
  function ApplyFactor(anchorTarget: U256, fracFactor: int): (scaled: U256)
    requires FRAC_ONE <= fracFactor < 2 * FRAC_ONE
  {
    var product := anchorTarget * fracFactor;
    MulMonotone(0, anchorTarget, fracFactor);
    DivMonotone(0, product, FRAC_ONE);
    if product <= U256_MAX then
      product / FRAC_ONE
    else
      MulMonotone(anchorTarget, U256_MAX, fracFactor);
      var prod: U512 := product;
      var quot: U512 := prod / FRAC_ONE;
      if quot <= U256_MAX then quot else U256_MAX
  }

  /** The integer exponent as a shift, with the early returns, the headroom test and the clamp. */
  function ShiftTarget(scaled: U256, intPart: int): (result: U256)
    ensures result >= 1
  {
    if intPart >= 0 then
      if intPart >= 256 then
        U256_MAX
      else
        BitsOfU256(scaled);
        var headroom: nat := 256 - Bits(scaled);
        if intPart > headroom then
          U256_MAX
        else
          FitsHeadroom(scaled, intPart);
          var shifted: U256 := scaled * Pow2(intPart);
          if shifted == 0 then 1 else shifted
    else if intPart <= -256 then
      1
    else
      DivMonotone(0, scaled, Pow2(-intPart));
      DivNoLarger(scaled, Pow2(-intPart));
      var shifted: U256 := scaled / Pow2(-intPart);
      if shifted == 0 then 1 else shifted
  }

  lemma DivNoLarger(a: nat, d: int)
    requires d >= 1
    ensures a / d <= a
  {
    MulMonotone(1, d, a);
    DivMonotone(a, a * d, d);
    MulDivCancel(a, d);
  }

  lemma BitsOfU256(x: U256)
    ensures Bits(x) <= 256
  {
    if x > 0 {
      BitsBracket(x);
      Pow2Of256();
      if Bits(x) > 256 {
        Pow2Monotone(256, Bits(x) - 1);
      }
    }
  }

  lemma ShiftBelow(x: nat, b: nat, shift: nat)
    requires x < Pow2(b)
    ensures 0 <= x * Pow2(shift) < Pow2(b + shift)
  {
    MulMonotone(x + 1, Pow2(b), Pow2(shift));
    MulMonotone(0, x, Pow2(shift));
    Pow2Add(b, shift);
  }

  /** The headroom test is exact: a shift that passes cannot overflow. */
  lemma FitsHeadroom(x: U256, shift: nat)
    requires shift + Bits(x) <= 256
    ensures 0 <= x * Pow2(shift) <= U256_MAX
  {
    if x > 0 {
      BitsBracket(x);
      var b := Bits(x);
      ShiftBelow(x, b, shift);
      Pow2Monotone(b + shift, 256);
      Pow2Of256();
    }
  }

  /** ... and a shift that fails it must overflow. */
  lemma OverflowsHeadroom(x: U256, shift: nat)
    requires x > 0 && shift + Bits(x) > 256
    ensures x * Pow2(shift) > U256_MAX
  {
    BitsBracket(x);
    MulMonotone(Pow2(Bits(x) - 1), x, Pow2(shift));
    Pow2Add(Bits(x) - 1, shift);
    Pow2Monotone(256, Bits(x) - 1 + shift);
    Pow2Of256();
  }

  // ---- The saturating formula -------------------------------------------------------------

  /** `floor(q * 2^n)` for an exponent of either sign. */
  function Scale(q: nat, n: int): nat {
    if n >= 0 then q * Pow2(n) else ScaleDown(q, -n)
  }

  function Clamp(x: int): int {
    Max(1, Min(U256_MAX, x))
  }

  function Fraction(e: int): int {
    e - e / FRAC_ONE * FRAC_ONE
  }

  /** `min(MAX, floor(anchor * factor / 65536))`. */
  function Quotient(anchorTarget: nat, e: int): nat {
    Min(U256_MAX, MulFactor(anchorTarget, FracFactor(Fraction(e))))
  }

  function MulFactor(anchorTarget: nat, factor: nat): nat {
    MulMonotone(0, anchorTarget, factor);
    DivMonotone(0, anchorTarget * factor, FRAC_ONE);
    anchorTarget * factor / FRAC_ONE
  }

  /** `max(1, min(MAX, floor(q * 2^int)))`. */
  function Target(anchorTarget: nat, e: int): int {
    Clamp(Scale(Quotient(anchorTarget, e), e / FRAC_ONE))
  }

  lemma ShiftIsScale(scaled: U256, intPart: int)
    ensures scaled >= 1 ==> ShiftTarget(scaled, intPart) == Clamp(Scale(scaled, intPart))
    ensures scaled == 0 ==> Clamp(Scale(scaled, intPart)) == 1
    ensures scaled == 0 ==> ShiftTarget(scaled, intPart) == if intPart >= 256 then U256_MAX else 1
  {
    if intPart >= 0 {
      if scaled == 0 {
        assert Bits(0) == 0;
        assert 0 * Pow2(intPart) == 0;
      } else {
        BitsBracket(scaled);
        if intPart + Bits(scaled) > 256 {
          OverflowsHeadroom(scaled, intPart);
        } else {
          FitsHeadroom(scaled, intPart);
        }
      }
    } else {
      DivNoLarger(scaled, Pow2(-intPart));
      if intPart <= -256 {
        Pow2Of256();
        Pow2Monotone(256, -intPart);
        DivUnique(scaled, Pow2(-intPart), 0, scaled);
      }
    }
  }

  lemma ApplyFactorIsQuotient(anchorTarget: U256, e: int)
    ensures ApplyFactor(anchorTarget, FracFactor(Fraction(e))) == Quotient(anchorTarget, e)
    ensures anchorTarget >= 1 ==> Quotient(anchorTarget, e) >= anchorTarget
    ensures Quotient(anchorTarget, e) <= 2 * anchorTarget
  {
    var f := FracFactor(Fraction(e));
    var product := anchorTarget * f;
    DivNoLarger(MulNat(anchorTarget, f), FRAC_ONE);
    MulMonotone(FRAC_ONE, f, anchorTarget);
    DivMonotone(anchorTarget * FRAC_ONE, product, FRAC_ONE);
    MulDivCancel(anchorTarget, FRAC_ONE);
    MulMonotone(f, 2 * FRAC_ONE, anchorTarget);
    DivMonotone(product, (2 * anchorTarget) * FRAC_ONE, FRAC_ONE);
    MulDivCancel(2 * anchorTarget, FRAC_ONE);
  }

  /** The checked product, the 512-bit product, the headroom test and both early returns are
      one saturating formula. The anchor zero is the only exception, and only past 2^256. */
  lemma ComputeIsTarget(anchorTarget: U256, timeDelta: I128, heightDelta: U64,
                        targetBlockTime: U64, halflife: U64)
    requires halflife > 0
    requires -U64_MAX <= timeDelta <= U64_MAX
    requires targetBlockTime * heightDelta <= U64_MAX
    ensures
      var e := Exponent(timeDelta - targetBlockTime * heightDelta, halflife);
      (ComputeNextTarget(anchorTarget, timeDelta, heightDelta, targetBlockTime, halflife)
        == Target(anchorTarget, e))
      <==> (anchorTarget >= 1 || e / FRAC_ONE < 256)
  {
    var e := Exponent(timeDelta - targetBlockTime * heightDelta, halflife);
    var f := FracFactor(Fraction(e));
    ApplyFactorIsQuotient(anchorTarget, e);
    ShiftIsScale(ApplyFactor(anchorTarget, f), e / FRAC_ONE);
  }
}
