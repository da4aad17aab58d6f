/** What the ASERT target guarantees over all inputs: it moves with time and against height
    across every seam of the fixed-point split, and a halflife doubles or halves it. */
module AsertLaws {
  import opened Asert
  import opened Basics
  import opened Powers

  // ---- The factor -----------------------------------------------------------------------

  /** One floor: a division with remainder. */
  lemma Floored(a: nat, q: int)
    requires q == a / FRAC_ONE
    ensures 0 <= a - q * FRAC_ONE < FRAC_ONE && q >= 0
  {
  }

  lemma SquareTerm(x: nat, t: int, u: int)
    requires x < FRAC_ONE && t == 15736 * x / FRAC_ONE && t >= 0 && u == t * x / FRAC_ONE
    ensures 0 <= 15736 * x * x - u * 65536 * 65536 < 2 * 65536 * 65536
  {
    var r := 15736 * x - t * FRAC_ONE;
    MulMonotone(0, t, x);
    Floored(t * x, u);
    var r' := t * x - u * FRAC_ONE;
    MulMonotone(0, r, x);
    MulMonotone(r, FRAC_ONE, x);
    assert 15736 * x * x == (t * FRAC_ONE + r) * x == t * x * FRAC_ONE + r * x;
    assert t * x * FRAC_ONE == u * FRAC_ONE * FRAC_ONE + r' * FRAC_ONE;
  }

  lemma CubeTerm(x: nat, t: int, u: int, v: int)
    requires x < FRAC_ONE && t == 3638 * x / FRAC_ONE && t >= 0
    requires u == t * x / FRAC_ONE && u >= 0 && v == u * x / FRAC_ONE
    ensures 0 <= 3638 * x * x * x - v * 65536 * 65536 * 65536 < 3 * 65536 * 65536 * 65536
  {
    MulMonotone(0, t, x);
    MulMonotone(0, u, x);
    Floored(t * x, u);
    Floored(u * x, v);
    var r, r', r'' := 3638 * x - t * FRAC_ONE, t * x - u * FRAC_ONE, u * x - v * FRAC_ONE;
    var square, cube := 3638 * x * x, 3638 * x * x * x;
    assert square == (t * FRAC_ONE + r) * x == t * x * FRAC_ONE + r * x;
    var rest := r' * FRAC_ONE + r * x;
    assert square == u * FRAC_ONE * FRAC_ONE + rest;
    MulMonotone(0, r, x);
    MulMonotone(r, FRAC_ONE, x);
    assert 0 <= rest < 2 * FRAC_ONE * FRAC_ONE;
    TimesBelow(rest, 2 * FRAC_ONE * FRAC_ONE, x);
    assert cube == (u * FRAC_ONE * FRAC_ONE + rest) * x == u * x * FRAC_ONE * FRAC_ONE + rest * x;
    assert u * x * FRAC_ONE * FRAC_ONE == v * FRAC_ONE * FRAC_ONE * FRAC_ONE + r'' * FRAC_ONE * FRAC_ONE;
  }

  lemma TimesBelow(a: nat, bound: nat, x: nat)
    requires a < bound && x < FRAC_ONE
    ensures 0 <= a * x <= bound * FRAC_ONE
  {
    MulMonotone(0, a, x);
    MulMonotone(a, bound, x);
    MulMonotone(x, FRAC_ONE, bound);
  }

  /** The factor is the cubic 1 + 0.693146 x + 0.240112 x^2 + 0.055511 x^3 in units of 1/65536, from
      below, by less than the six floors it is computed with. */
  lemma FactorIsCubic(x: nat)
    requires x < 65536
    ensures
      var cubic := 45426 * x * 65536 * 65536 + 15736 * x * x * 65536 + 3638 * x * x * x;
      0 <= cubic - (FracFactor(x) - 65536) * 65536 * 65536 * 65536 < 6 * 65536 * 65536 * 65536
  {
    var t1, t2, t3 := 45426 * x / FRAC_ONE, 15736 * x / FRAC_ONE, 3638 * x / FRAC_ONE;
    MulMonotone(0, t2, x);
    MulMonotone(0, t3, x);
    var u2, u3 := t2 * x / FRAC_ONE, t3 * x / FRAC_ONE;
    MulMonotone(0, u3, x);
    var v3 := u3 * x / FRAC_ONE;
    assert FracFactor(x) == FRAC_ONE + t1 + u2 + v3;
    SquareTerm(x, t2, u2);
    CubeTerm(x, t3, u3, v3);
    hide FracFactor;
    SumOfTerms(45426 * x - t1 * 65536, 15736 * x * x - u2 * 65536 * 65536, 3638 * x * x * x - v3 * 65536 * 65536 * 65536,
               45426 * x, 15736 * x * x, 3638 * x * x * x, t1, u2, v3);
  }

  lemma SumOfTerms(r1: int, r2: int, r3: int, a: int, b: int, c: int, t: int, u: int, v: int)
    requires 0 <= r1 < 65536 && 0 <= r2 < 2 * 65536 * 65536 && 0 <= r3 < 3 * 65536 * 65536 * 65536
    requires a == t * 65536 + r1 && b == u * 65536 * 65536 + r2 && c == v * 65536 * 65536 * 65536 + r3
    ensures 0 <= a * 65536 * 65536 + b * 65536 + c - (t + u + v) * 65536 * 65536 * 65536 < 6 * 65536 * 65536 * 65536
  {
  }

  /** Half a halflife behind schedule. */
  lemma HalfwayFactor()
    ensures FracFactor(32768) == 92637
    ensures ComputeNextTarget(65536, 910, 1, 10, 1800) == 92637
  {
    FactorIs(32768, 22713, 7868, 3934, 1819, 909, 454);
    ComputeIsTarget(FRAC_ONE, 910, 1, 10, 1800);
    UnitAnchor(32768);
    assert Exponent(900, 1800) == 32768 && 32768 / FRAC_ONE == 0 && Fraction(32768) == 32768;
    hide FracFactor, Target, Scale, ComputeNextTarget;
    ScaleByOne(92637);
  }

  // ---- Monotonicity ---------------------------------------------------------------------

  lemma TruncDivMonotone(a: int, b: int, d: int)
    requires a <= b && d > 0
    ensures TruncDiv(a, d) <= TruncDiv(b, d)
  {
    if b < 0 {
      DivMonotone(-b, -a, d);
    } else if a < 0 {
      DivMonotone(0, -a, d);
      DivMonotone(0, b, d);
    } else {
      DivMonotone(a, b, d);
    }
  }

  lemma TermMonotone(c: int, x: int, d: int, y: int)
    requires 0 <= c <= d && 0 <= x <= y
    ensures c * x / FRAC_ONE <= d * y / FRAC_ONE
  {
    MulMonotone(c, d, x);
    MulMonotone(x, y, d);
    DivMonotone(c * x, d * y, FRAC_ONE);
  }

  lemma FracFactorMonotone(x: int, y: int)
    requires 0 <= x <= y < FRAC_ONE
    ensures FracFactor(x) <= FracFactor(y)
  {
    TermMonotone(A1, x, A1, y);
    TermMonotone(A2, x, A2, y);
    TermBound(A2, x, A2);
    TermMonotone(A2 * x / FRAC_ONE, x, A2 * y / FRAC_ONE, y);
    TermMonotone(A3, x, A3, y);
    TermBound(A3, x, A3);
    var u, v := A3 * x / FRAC_ONE, A3 * y / FRAC_ONE;
    TermMonotone(u, x, v, y);
    TermBound(u, x, A3);
    TermMonotone(u * x / FRAC_ONE, x, v * y / FRAC_ONE, y);
  }

  lemma ScaleMonotone(p: nat, q: nat, n: int)
    requires p <= q
    ensures Scale(p, n) <= Scale(q, n)
  {
    if n >= 0 {
      MulMonotone(p, q, Pow2(n));
    } else {
      DivMonotone(p, q, Pow2(-n));
    }
  }

  /** One more power of two is one more factor of two, on either side of zero. */
  lemma ScaleStep(q: nat, n: int)
    ensures Scale(2 * q, n) == Scale(q, n + 1)
  {
    if n >= 0 {
      assert (2 * q) * Pow2(n) == q * (2 * Pow2(n));
    } else {
      DivDiv(2 * q, 2, Pow2(-n - 1));
      assert Pow2(-n) == 2 * Pow2(-n - 1);
      if n == -1 {
        assert Pow2(0) == 1;
      }
    }
  }

  lemma {:induction false} ScaleUp(q: nat, m: int, n: int)
    requires m <= n
    ensures Scale(q, m) <= Scale(q, n)
    decreases n - m
  {
    if m < n {
      ScaleStep(q, m);
      ScaleMonotone(q, 2 * q, m);
      ScaleUp(q, m + 1, n);
    }
  }

  lemma QuotientMonotone(anchorTarget: U256, d: int, e: int)
    requires d <= e && d / FRAC_ONE == e / FRAC_ONE
    ensures Quotient(anchorTarget, d) <= Quotient(anchorTarget, e)
  {
    var f, g := FracFactor(Fraction(d)), FracFactor(Fraction(e));
    FracFactorMonotone(Fraction(d), Fraction(e));
    MulMonotone(f, g, anchorTarget);
    DivMonotone(anchorTarget * f, anchorTarget * g, FRAC_ONE);
  }

  /** The wrap of the fraction into the next integer exponent does not lower the target:
      the factor stays below two, and the anchor itself is the next exponent's start. */
  lemma TargetMonotone(anchorTarget: U256, d: int, e: int)
    requires d <= e
    ensures Target(anchorTarget, d) <= Target(anchorTarget, e)
  {
    var m, n := d / FRAC_ONE, e / FRAC_ONE;
    var p, q := Quotient(anchorTarget, d), Quotient(anchorTarget, e);
    DivMonotone(d, e, FRAC_ONE);
    if m == n {
      QuotientMonotone(anchorTarget, d, e);
      ScaleMonotone(p, q, n);
    } else {
      ApplyFactorIsQuotient(anchorTarget, d);
      ApplyFactorIsQuotient(anchorTarget, e);
      ScaleMonotone(p, 2 * anchorTarget, m);
      ScaleStep(anchorTarget, m);
      ScaleUp(anchorTarget, m + 1, n);
      ScaleMonotone(anchorTarget, q, n);
    }
  }

  /** The anchor zero gives the smallest target up to 2^256 and the largest from there on. */
  lemma ZeroAnchor(time: I128, height: U64, targetBlockTime: U64, halflife: U64)
    requires halflife > 0 && -U64_MAX <= time <= U64_MAX && targetBlockTime * height <= U64_MAX
    ensures ComputeNextTarget(0, time, height, targetBlockTime, halflife)
         == if Exponent(time - targetBlockTime * height, halflife) / FRAC_ONE >= 256 then U256_MAX else 1
  {
    var e := Exponent(time - targetBlockTime * height, halflife);
    ApplyFactorIsQuotient(0, e);
    ShiftIsScale(0, e / FRAC_ONE);
  }

  lemma ComputeMonotone(anchorTarget: U256, time: I128, height: U64, time': I128, height': U64,
                        targetBlockTime: U64, halflife: U64)
    requires halflife > 0
    requires -U64_MAX <= time <= U64_MAX && -U64_MAX <= time' <= U64_MAX
    requires targetBlockTime * height <= U64_MAX && targetBlockTime * height' <= U64_MAX
    requires time <= time' && height' <= height
    ensures ComputeNextTarget(anchorTarget, time, height, targetBlockTime, halflife)
         <= ComputeNextTarget(anchorTarget, time', height', targetBlockTime, halflife)
  {
    hide ComputeNextTarget, Target;
    var d, d' := time - targetBlockTime * height, time' - targetBlockTime * height';
    MulMonotone(height', height, targetBlockTime);
    TruncDivMonotone(d * FRAC_ONE, d' * FRAC_ONE, halflife);
    var e, e' := Exponent(d, halflife), Exponent(d', halflife);
    if anchorTarget == 0 {
      DivMonotone(e, e', FRAC_ONE);
      ZeroAnchor(time, height, targetBlockTime, halflife);
      ZeroAnchor(time', height', targetBlockTime, halflife);
    } else {
      TargetMonotone(anchorTarget, e, e');
      ComputeIsTarget(anchorTarget, time, height, targetBlockTime, halflife);
      ComputeIsTarget(anchorTarget, time', height', targetBlockTime, halflife);
    }
  }

  // ---- Self-similarity --------------------------------------------------------------------

  lemma DivShift(a: int, d: int, k: int)
    requires d > 0
    ensures (a + k * d) / d == a / d + k
  {
    assert a + k * d == (a / d + k) * d + a % d;
    DivUnique(a + k * d, d, a / d + k, a % d);
  }

  /** Whether one more halflife adds exactly one to the exponent. Truncation toward zero takes
      one unit away when the step crosses zero and the division has a remainder. */
  predicate CleanStep(behind: int, halflife: int)
    requires halflife > 0
  {
    behind >= 0 || behind <= -halflife || behind * FRAC_ONE % halflife == 0
  }

  lemma ExponentStep(behind: int, halflife: int)
    requires halflife > 0
    ensures Exponent(behind + halflife, halflife)
         == Exponent(behind, halflife) + FRAC_ONE - if CleanStep(behind, halflife) then 0 else 1
  {
    var n := behind * FRAC_ONE;
    assert (behind + halflife) * FRAC_ONE == n + FRAC_ONE * halflife;
    DivShift(n, halflife, FRAC_ONE);
    DivShift(-n, halflife, -FRAC_ONE);
    NegDiv(n, halflife);
    if behind < 0 {
      MulMonotone(1, -behind, FRAC_ONE);
      if behind == -halflife {
        DivUnique(0, halflife, 0, 0);
      }
    }
  }

  /** Rounding a negated numerator: exact when it divides, one further down otherwise. */
  lemma NegDiv(a: int, d: int)
    requires d > 0
    ensures (-a) / d == -(a / d) - if a % d == 0 then 0 else 1
  {
    if a % d == 0 {
      DivUnique(-a, d, -(a / d), 0);
    } else {
      assert -a == (-(a / d) - 1) * d + (d - a % d);
      DivUnique(-a, d, -(a / d) - 1, d - a % d);
    }
  }

  lemma StepKeepsQuotient(anchorTarget: U256, e: int)
    ensures (e + FRAC_ONE) / FRAC_ONE == e / FRAC_ONE + 1
    ensures Quotient(anchorTarget, e + FRAC_ONE) == Quotient(anchorTarget, e)
  {
    DivShift(e, FRAC_ONE, 1);
  }

  lemma ClampedAbove(anchorTarget: U256, e: int)
    ensures Target(anchorTarget, e + FRAC_ONE) == Clamp(Scale(Quotient(anchorTarget, e), e / FRAC_ONE + 1))
    ensures anchorTarget >= 1 ==> Quotient(anchorTarget, e) >= 1
  {
    StepKeepsQuotient(anchorTarget, e);
    ApplyFactorIsQuotient(anchorTarget, e);
  }

  /** A right shift by `k` keeps a set bit, and the highest bit it drops is clear. */
  predicate DropsZero(q: nat, k: nat)
    requires k >= 1
  {
    q >= Pow2(k) && q / Pow2(k - 1) % 2 == 0
  }

  lemma DropsZeroIs(q: nat, n: int)
    requires n < 0
    ensures DropsZero(q, -n) <==> Scale(q, n + 1) > 0 && Scale(q, n + 1) % 2 == 0
  {
    var p, kept := Pow2(-n - 1), q / Pow2(-n - 1);
    assert Pow2(-n) == 2 * p;
    if n == -1 {
      assert p == 1 && kept == q;
    }
    if kept >= 2 {
      MulMonotone(2, kept, p);
      assert q == kept * p + q % p;
    } else {
      DivMonotone(0, q, p);
      if q >= 2 * p {
        DivMonotone(2 * p, q, p);
        MulDivCancel(2, p);
      }
    }
  }

  /** Doubling is exact from the anchor up. Below it, it is exact where the shift of the scaled
      anchor drops a zero. */
  lemma DoublingLaw(anchorTarget: U256, e: int)
    requires anchorTarget >= 1
    ensures
      (Target(anchorTarget, e + FRAC_ONE) == Min(U256_MAX, 2 * Target(anchorTarget, e)))
      <==> (e >= 0 || DropsZero(Quotient(anchorTarget, e), -(e / FRAC_ONE)))
  {
    var q, n := Quotient(anchorTarget, e), e / FRAC_ONE;
    ClampedAbove(anchorTarget, e);
    if e >= 0 {
      DoublingAbove(q, n);
    } else {
      HalvingBelow(q, n);
      DropsZeroIs(q, n);
    }
    hide Quotient, Scale, DropsZero;
  }

  lemma DoublingAbove(q: nat, n: nat)
    ensures Scale(q, n + 1) == 2 * Scale(q, n)
    ensures Scale(q, n) >= q
  {
    ScaleStep(q, n);
    assert (2 * q) * Pow2(n) == 2 * (q * Pow2(n));
    MulGe(q, Pow2(n));
  }

  lemma HalvingBelow(q: U256, n: int)
    requires n < 0
    ensures Scale(q, n) == Scale(q, n + 1) / 2
    ensures 0 <= Scale(q, n + 1) <= U256_MAX
  {
    DivDiv(q, Pow2(-n - 1), 2);
    assert Pow2(-n) == Pow2(-n - 1) * 2;
    if n == -1 {
      assert Pow2(0) == 1;
      assert q * Pow2(0) == q;
    }
    DivNoLarger(q, Pow2(-n - 1));
  }

  /** Halving is exact below the anchor. Above it, it is exact while there is headroom for one more
      doubling of the scaled anchor. */
  lemma HalvingLaw(anchorTarget: U256, e: int)
    requires anchorTarget >= 1
    ensures
      (Target(anchorTarget, e) == Max(1, Target(anchorTarget, e + FRAC_ONE) / 2))
      <==> (e < 0 || Bits(Quotient(anchorTarget, e)) + e / FRAC_ONE + 1 <= 256)
  {
    var q, n := Quotient(anchorTarget, e), e / FRAC_ONE;
    ClampedAbove(anchorTarget, e);
    if e >= 0 {
      DoublingAbove(q, n);
      if Bits(q) + n + 1 <= 256 {
        FitsHeadroom(q, n + 1);
      } else {
        OverflowsHeadroom(q, n + 1);
      }
      assert Scale(q, n + 1) == q * Pow2(n + 1);
    } else {
      HalvingBelow(q, n);
    }
    hide Quotient, Scale, Bits;
  }

  // A step that is not clean falls one unit of the exponent short.

  lemma UncleanExponent(behind: int, halflife: int)
    requires halflife > 0 && !CleanStep(behind, halflife)
    ensures -FRAC_ONE < Exponent(behind, halflife) <= 0
  {
    var n := -behind * FRAC_ONE;
    DivMonotone(0, n, halflife);
    MulMonotone(-behind, halflife - 1, FRAC_ONE);
    DivMonotone(n, FRAC_ONE * halflife - 1, halflife);
    DivUnique(FRAC_ONE * halflife - 1, halflife, FRAC_ONE - 1, halflife - 1);
  }

  /** The targets on both sides of a step that is not clean. */
  lemma UncleanTargets(anchorTarget: U256, e: int)
    requires anchorTarget >= 1 && -FRAC_ONE < e <= 0
    ensures
      var q, later := Quotient(anchorTarget, e), Quotient(anchorTarget, e + FRAC_ONE - 1);
      && q <= U256_MAX && 1 <= later <= U256_MAX && Target(anchorTarget, e + FRAC_ONE - 1) == later
      && (e < 0 ==> later <= q && Target(anchorTarget, e) == Max(1, q / 2))
  {
    var next := e + FRAC_ONE - 1;
    assert next / FRAC_ONE == 0;
    ApplyFactorIsQuotient(anchorTarget, next);
    ScaleByOne(Quotient(anchorTarget, next));
    if e < 0 {
      assert e / FRAC_ONE == -1;
      ScaleByOne(Quotient(anchorTarget, e));
      StepKeepsQuotient(anchorTarget, e);
      QuotientMonotone(anchorTarget, next, e + FRAC_ONE);
    }
    hide Quotient, Scale;
  }

  /** From the anchor, one unit short of doubling never doubles: the factor stays below two. */
  lemma ShortOfDouble(anchorTarget: U256)
    requires anchorTarget >= 1
    ensures Quotient(anchorTarget, FRAC_ONE - 1) < 2 * anchorTarget
  {
    var f := FracFactor(FRAC_ONE - 1);
    assert Fraction(FRAC_ONE - 1) == FRAC_ONE - 1;
    MulMonotone(f, 2 * FRAC_ONE - 1, anchorTarget);
    DivMonotone(anchorTarget * f, 2 * anchorTarget * FRAC_ONE - 1, FRAC_ONE);
    DivUnique(2 * anchorTarget * FRAC_ONE - 1, FRAC_ONE, 2 * anchorTarget - 1, FRAC_ONE - 1);
    hide FracFactor;
  }

  /** The anchor times the factor of the exponent, before saturation. */
  function Product(anchorTarget: nat, e: int): nat {
    MulFactor(anchorTarget, FracFactor(Fraction(e)))
  }

  /** Whether the step doubles: the smaller of the two products is even, below the maximum, and not
      more than one short of the larger; or, from the anchor, it saturates. */
  predicate UncleanDoubles(anchorTarget: nat, e: int) {
    var p, short := Product(anchorTarget, e), Product(anchorTarget, e + FRAC_ONE - 1);
    if e < 0 then short % 2 == 0 && short < U256_MAX && (p <= short + 1 || short + 1 == U256_MAX)
    else short >= U256_MAX
  }

  predicate UncleanHalves(anchorTarget: nat, e: int) {
    var p, short := Product(anchorTarget, e), Product(anchorTarget, e + FRAC_ONE - 1);
    if e < 0 then p / 2 == short / 2 || p <= 3 || short + 1 >= U256_MAX else anchorTarget == 1
  }

  lemma UncleanLaw(anchorTarget: U256, e: int)
    requires anchorTarget >= 1 && -FRAC_ONE < e <= 0
    ensures
      var here, there := Target(anchorTarget, e), Target(anchorTarget, e + FRAC_ONE - 1);
      && (there == Min(U256_MAX, 2 * here) <==> UncleanDoubles(anchorTarget, e))
      && (here == Max(1, there / 2) <==> UncleanHalves(anchorTarget, e))
  {
    var p, short := Product(anchorTarget, e), Product(anchorTarget, e + FRAC_ONE - 1);
    var q, later := Quotient(anchorTarget, e), Quotient(anchorTarget, e + FRAC_ONE - 1);
    assert q == Min(U256_MAX, p) && later == Min(U256_MAX, short);
    hide Quotient, Target, Product;
    UncleanTargets(anchorTarget, e);
    if e == 0 {
      TargetAtZero(anchorTarget);
      ShortOfDouble(anchorTarget);
      FromAnchor(anchorTarget, later);
    } else {
      ShorterProduct(anchorTarget, e);
      NearlyDouble(q, later);
      Unsaturated(p, short);
    }
  }

  lemma ShorterProduct(anchorTarget: U256, e: int)
    requires -FRAC_ONE < e < 0
    ensures Product(anchorTarget, e + FRAC_ONE - 1) <= Product(anchorTarget, e)
  {
    assert Fraction(e) == e + FRAC_ONE && Fraction(e + FRAC_ONE - 1) == e + FRAC_ONE - 1;
    var f, g := FracFactor(e + FRAC_ONE - 1), FracFactor(e + FRAC_ONE);
    FracFactorMonotone(e + FRAC_ONE - 1, e + FRAC_ONE);
    MulMonotone(f, g, anchorTarget);
    DivMonotone(anchorTarget * f, anchorTarget * g, FRAC_ONE);
    hide FracFactor;
  }

  lemma NearlyDouble(q: U256, later: int)
    requires 1 <= later <= q
    ensures later == Min(U256_MAX, 2 * Max(1, q / 2)) <==> later % 2 == 0 && q <= later + 1
    ensures Max(1, q / 2) == Max(1, later / 2) <==> later / 2 == q / 2 || q <= 3
  {
    assert q == 2 * (q / 2) + q % 2 && later == 2 * (later / 2) + later % 2;
  }

  /** The same on the products: the maximum is odd. */
  lemma Unsaturated(p: nat, short: nat)
    requires short <= p
    ensures
      var q, later := Min(U256_MAX, p), Min(U256_MAX, short);
      && (later % 2 == 0 && q <= later + 1 <==>
            short % 2 == 0 && short < U256_MAX && (p <= short + 1 || short + 1 == U256_MAX))
      && (later / 2 == q / 2 || q <= 3 <==> p / 2 == short / 2 || p <= 3 || short + 1 >= U256_MAX)
  {
    assert U256_MAX % 2 == 1;
    if short + 1 < U256_MAX <= p {
      DivMonotone(short, U256_MAX - 2, 2);
      DivMonotone(U256_MAX, p, 2);
    }
  }

  lemma FromAnchor(anchorTarget: U256, later: U256)
    requires 1 <= later < 2 * anchorTarget
    ensures later == Min(U256_MAX, 2 * anchorTarget) <==> later == U256_MAX
    ensures anchorTarget == Max(1, later / 2) <==> anchorTarget == 1
  {
  }

  /** On schedule the target is the anchor's. */
  lemma OnSchedule(anchorTarget: U256, height: U64, targetBlockTime: U64, halflife: U64)
    requires anchorTarget >= 1 && halflife > 0
    requires targetBlockTime * height <= U64_MAX
    ensures ComputeNextTarget(anchorTarget, targetBlockTime * height, height, targetBlockTime, halflife)
         == anchorTarget
  {
    ComputeIsTarget(anchorTarget, targetBlockTime * height, height, targetBlockTime, halflife);
    DivUnique(0, halflife, 0, 0);
    TargetAtZero(anchorTarget);
  }

  lemma TargetAtZero(anchorTarget: U256)
    requires anchorTarget >= 1
    ensures Target(anchorTarget, 0) == anchorTarget
  {
    assert Fraction(0) == 0;
    assert FracFactor(0) == FRAC_ONE;
    MulDivCancel(anchorTarget, FRAC_ONE);
    assert Pow2(0) == 1;
    assert Scale(anchorTarget, 0) == anchorTarget * 1;
  }

  /** When one more halflife doubles the target of an anchor, told from the exponent and the
      anchor's products. */
  predicate Doubles(anchorTarget: nat, behind: int, halflife: int)
    requires halflife > 0
  {
    var e := Exponent(behind, halflife);
    if CleanStep(behind, halflife) then e >= 0 || DropsZero(Quotient(anchorTarget, e), -(e / FRAC_ONE))
    else UncleanDoubles(anchorTarget, e)
  }

  /** When one halflife less halves it. */
  predicate Halves(anchorTarget: nat, behind: int, halflife: int)
    requires halflife > 0
  {
    var e := Exponent(behind, halflife);
    if CleanStep(behind, halflife) then e < 0 || Bits(Quotient(anchorTarget, e)) + e / FRAC_ONE + 1 <= 256
    else UncleanHalves(anchorTarget, e)
  }

  lemma HalflifeOfTargets(anchorTarget: U256, behind: int, halflife: int)
    requires anchorTarget >= 1 && halflife > 0
    ensures
      var here, later := Target(anchorTarget, Exponent(behind, halflife)),
                         Target(anchorTarget, Exponent(behind + halflife, halflife));
      && (later == Min(U256_MAX, 2 * here) <==> Doubles(anchorTarget, behind, halflife))
      && (here == Max(1, later / 2) <==> Halves(anchorTarget, behind, halflife))
  {
    hide Exponent, Target, Quotient, Bits, DropsZero, UncleanDoubles, UncleanHalves;
    var e := Exponent(behind, halflife);
    ExponentStep(behind, halflife);
    if CleanStep(behind, halflife) {
      DoublingLaw(anchorTarget, e);
      HalvingLaw(anchorTarget, e);
    } else {
      UncleanExponent(behind, halflife);
      UncleanLaw(anchorTarget, e);
    }
  }

  /** The arguments of the source: a timestamp and an ideal time that fit 64 bits, here and one
      halflife later. */
  ghost predicate InRange(time: int, height: U64, targetBlockTime: U64, halflife: U64) {
    && halflife > 0 && -U64_MAX <= time && time + halflife <= U64_MAX
    && targetBlockTime * height <= U64_MAX
  }

  /** For one anchor: exactly when one more halflife doubles the computed target, and one less
      halves it. */
  lemma OneHalflife(anchorTarget: U256, time: I128, height: U64, targetBlockTime: U64, halflife: U64)
    requires anchorTarget >= 1 && InRange(time, height, targetBlockTime, halflife)
    ensures
      var behind := time - targetBlockTime * height;
      var here := ComputeNextTarget(anchorTarget, time, height, targetBlockTime, halflife);
      var later := ComputeNextTarget(anchorTarget, time + halflife, height, targetBlockTime, halflife);
      && (later == Min(U256_MAX, 2 * here) <==> Doubles(anchorTarget, behind, halflife))
      && (here == Max(1, later / 2) <==> Halves(anchorTarget, behind, halflife))
  {
    hide ComputeNextTarget, Exponent, Target, Doubles, Halves;
    var behind := time - targetBlockTime * height;
    ComputeIsTarget(anchorTarget, time, height, targetBlockTime, halflife);
    ComputeIsTarget(anchorTarget, time + halflife, height, targetBlockTime, halflife);
    assert time + halflife - targetBlockTime * height == behind + halflife;
    HalflifeOfTargets(anchorTarget, behind, halflife);
  }

  /** At or behind schedule one more halflife doubles the target, whatever the anchor. */
  lemma DoublesBehind(anchorTarget: U256, time: I128, height: U64, targetBlockTime: U64, halflife: U64)
    requires anchorTarget >= 1 && InRange(time, height, targetBlockTime, halflife)
    requires time >= targetBlockTime * height
    ensures ComputeNextTarget(anchorTarget, time + halflife, height, targetBlockTime, halflife)
         == Min(U256_MAX, 2 * ComputeNextTarget(anchorTarget, time, height, targetBlockTime, halflife))
  {
    hide ComputeNextTarget, Quotient, Target;
    OneHalflife(anchorTarget, time, height, targetBlockTime, halflife);
    ExponentSign(time - targetBlockTime * height, halflife);
  }

  /** At or ahead of schedule one halflife less halves it. */
  lemma HalvesAhead(anchorTarget: U256, time: I128, height: U64, targetBlockTime: U64, halflife: U64)
    requires anchorTarget >= 1 && InRange(time - halflife, height, targetBlockTime, halflife)
    requires time <= targetBlockTime * height
    ensures ComputeNextTarget(anchorTarget, time - halflife, height, targetBlockTime, halflife)
         == Max(1, ComputeNextTarget(anchorTarget, time, height, targetBlockTime, halflife) / 2)
  {
    hide ComputeNextTarget, Quotient, Target;
    OneHalflife(anchorTarget, time - halflife, height, targetBlockTime, halflife);
    ExponentSign(time - halflife - targetBlockTime * height, halflife);
  }

  // Which offsets are exact for every anchor.

  /** The smallest anchor never doubles ahead of schedule. */
  lemma OneDoesNotDouble(behind: int, halflife: int)
    requires halflife > 0 && behind < 0
    ensures !Doubles(1, behind, halflife)
  {
    var e := Exponent(behind, halflife);
    ProductOfOne(e);
    ProductOfOne(e + FRAC_ONE - 1);
    if CleanStep(behind, halflife) {
      ExponentSign(behind, halflife);
      var k := -(e / FRAC_ONE);
      Pow2Monotone(1, k);
      assert Pow2(1) == 2 * Pow2(0);
    } else {
      UncleanExponent(behind, halflife);
    }
    hide Exponent, Product, CleanStep;
  }

  lemma ProductOfOne(e: int)
    ensures Product(1, e) == 1 && Quotient(1, e) == 1
  {
    var f := FracFactor(Fraction(e));
    DivUnique(f, FRAC_ONE, 1, f - FRAC_ONE);
    hide FracFactor;
  }

  /** The largest does not halve at or behind schedule. */
  lemma MaxDoesNotHalve(behind: int, halflife: int)
    requires halflife > 0 && behind >= 0
    ensures !Halves(U256_MAX, behind, halflife)
  {
    var e := Exponent(behind, halflife);
    ExponentSign(behind, halflife);
    ApplyFactorIsQuotient(U256_MAX, e);
    assert Quotient(U256_MAX, e) == U256_MAX;
    BitsOfMax();
    hide Exponent, Quotient, Bits;
  }

  lemma BelowPower(m: nat, n: nat)
    requires m < n
    ensures 2 * Pow2(m) <= Pow2(n)
  {
    Pow2Monotone(m + 1, n);
  }

  lemma BitsOfMax()
    ensures Bits(U256_MAX) >= 256
  {
    BitsBracket(U256_MAX);
    Pow2Of256();
    hide Bits, Pow2;
    if Bits(U256_MAX) < 256 {
      BelowPower(Bits(U256_MAX), 256);
    }
  }

  /** Ahead of schedule every anchor halves if the exponent step is whole, or if one unit of the
      exponent does not change the factor. */
  predicate HalvesForAll(behind: int, halflife: int)
    requires halflife > 0
  {
    var e := Exponent(behind, halflife);
    behind < 0 && (CleanStep(behind, halflife)
                   || (e < 0 && FracFactor(Fraction(e)) == FracFactor(Fraction(e + FRAC_ONE - 1))))
  }

  lemma HalvingAnchor(behind: int, halflife: int) returns (anchorTarget: U256)
    requires halflife > 0 && !HalvesForAll(behind, halflife)
    ensures anchorTarget >= 1 && !Halves(anchorTarget, behind, halflife)
  {
    if behind >= 0 {
      MaxDoesNotHalve(behind, halflife);
      return U256_MAX;
    }
    var e := Exponent(behind, halflife);
    UncleanExponent(behind, halflife);
    if e == 0 {
      return 2;
    }
    DoubledUnit(e);
    DoubledUnit(e + FRAC_ONE - 1);
    hide Product, FracFactor, Exponent;
    return 2 * FRAC_ONE;
  }

  lemma DoubledUnit(e: int)
    ensures Product(2 * FRAC_ONE, e) == 2 * FracFactor(Fraction(e))
  {
    var f := FracFactor(Fraction(e));
    MulDivCancel(2 * f, FRAC_ONE);
    hide FracFactor;
  }

  lemma HalvesWhenForAll(anchorTarget: U256, behind: int, halflife: int)
    requires anchorTarget >= 1 && halflife > 0 && HalvesForAll(behind, halflife)
    ensures Halves(anchorTarget, behind, halflife)
  {
    if CleanStep(behind, halflife) {
      ExponentSign(behind, halflife);
    }
    hide Exponent, FracFactor, Bits;
  }

  /** One more halflife doubles every anchor's target precisely at or behind schedule, and one less
      halves every anchor's precisely ahead of it, on the offsets named above. */
  lemma ExactOffsets(time: I128, height: U64, targetBlockTime: U64, halflife: U64)
    requires InRange(time, height, targetBlockTime, halflife)
    ensures
      (forall anchor: U256 | anchor >= 1 ::
         ComputeNextTarget(anchor, time + halflife, height, targetBlockTime, halflife)
         == Min(U256_MAX, 2 * ComputeNextTarget(anchor, time, height, targetBlockTime, halflife)))
      <==> time >= targetBlockTime * height
    ensures
      (forall anchor: U256 | anchor >= 1 ::
         ComputeNextTarget(anchor, time, height, targetBlockTime, halflife)
         == Max(1, ComputeNextTarget(anchor, time + halflife, height, targetBlockTime, halflife) / 2))
      <==> HalvesForAll(time - targetBlockTime * height, halflife)
  {
    hide ComputeNextTarget, Doubles, Halves, HalvesForAll;
    var behind := time - targetBlockTime * height;
    if behind < 0 {
      OneDoesNotDouble(behind, halflife);
      OneHalflife(1, time, height, targetBlockTime, halflife);
    } else {
      forall anchor: U256 | anchor >= 1
        ensures ComputeNextTarget(anchor, time + halflife, height, targetBlockTime, halflife)
             == Min(U256_MAX, 2 * ComputeNextTarget(anchor, time, height, targetBlockTime, halflife))
      {
        DoublesBehind(anchor, time, height, targetBlockTime, halflife);
      }
    }
    if HalvesForAll(behind, halflife) {
      forall anchor: U256 | anchor >= 1
        ensures ComputeNextTarget(anchor, time, height, targetBlockTime, halflife)
             == Max(1, ComputeNextTarget(anchor, time + halflife, height, targetBlockTime, halflife) / 2)
      {
        HalvesWhenForAll(anchor, behind, halflife);
        OneHalflife(anchor, time, height, targetBlockTime, halflife);
      }
    } else {
      var anchor := HalvingAnchor(behind, halflife);
      OneHalflife(anchor, time, height, targetBlockTime, halflife);
    }
  }

  lemma ExponentSign(behind: int, halflife: int)
    requires halflife > 0 && CleanStep(behind, halflife)
    ensures Exponent(behind, halflife) < 0 <==> behind < 0
  {
    var n := behind * FRAC_ONE;
    if behind >= 0 {
      DivMonotone(0, n, halflife);
    } else if behind <= -halflife {
      DivMonotone(halflife, -n, halflife);
      DivUnique(halflife, halflife, 1, 0);
    } else {
      NegDiv(n, halflife);
      assert n == (n / halflife) * halflife;
    }
  }

  /** With the runtime's halflife, a block ten seconds early: the target one halflife later is even,
      yet it is not the doubled one. */
  lemma UncleanStepBreaksDoubling()
    ensures !CleanStep(0 - 10 * 1, 1800)
    ensures ComputeNextTarget(FRAC_ONE, 0, 1, 10, 1800) == 64923
    ensures ComputeNextTarget(FRAC_ONE, 1800, 1, 10, 1800) == 129844
    ensures ComputeNextTarget(FRAC_ONE, 1800, 1, 10, 1800)
         != Min(U256_MAX, 2 * ComputeNextTarget(FRAC_ONE, 0, 1, 10, 1800))
  {
    ComputeIsTarget(FRAC_ONE, 0, 1, 10, 1800);
    ComputeIsTarget(FRAC_ONE, 1800, 1, 10, 1800);
    assert Exponent(-10, 1800) == -364;
    assert Exponent(1790, 1800) == 65171;
    TenSecondsEarly();
    OneHalflifeLater();
  }

  /** Anchored at one unit, the factor itself is scaled. */
  lemma UnitAnchor(e: int)
    ensures Target(FRAC_ONE, e) == Clamp(Scale(FracFactor(Fraction(e)), e / FRAC_ONE))
  {
    MulDivCancel(FracFactor(Fraction(e)), FRAC_ONE);
  }

  lemma ScaleByOne(q: nat)
    ensures Scale(q, 0) == q && Scale(q, -1) == q / 2
  {
    assert Pow2(1) == 2 * Pow2(0);
  }

  /** The factor, term by term. */
  lemma FactorIs(x: int, t1: int, t2: int, s2: int, t3: int, s3: int, r3: int)
    requires 0 <= x < FRAC_ONE
    requires A1 * x / FRAC_ONE == t1
    requires A2 * x / FRAC_ONE == t2 && t2 * x / FRAC_ONE == s2
    requires A3 * x / FRAC_ONE == t3 && t3 * x / FRAC_ONE == s3 && s3 * x / FRAC_ONE == r3
    ensures FracFactor(x) == FRAC_ONE + t1 + s2 + r3
  {
  }

  lemma TenSecondsEarly()
    ensures Target(FRAC_ONE, -364) == 64923
  {
    UnitAnchor(-364);
    assert -364 / FRAC_ONE == -1 && Fraction(-364) == 65172;
    FactorIs(65172, 45173, 15648, 15561, 3617, 3596, 3576);
    hide FracFactor, Target, Scale;
    ScaleByOne(129846);
  }

  lemma OneHalflifeLater()
    ensures Target(FRAC_ONE, 65171) == 129844
  {
    UnitAnchor(65171);
    assert 65171 / FRAC_ONE == 0 && Fraction(65171) == 65171;
    FactorIs(65171, 45173, 15648, 15560, 3617, 3596, 3575);
    hide FracFactor, Target, Scale;
    ScaleByOne(129844);
  }
}
